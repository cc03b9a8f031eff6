/** The checker's verdict: runtime imports, hardening bits, load configuration,
    guard function table and the count of guarded indirect calls. */
module PeCheck {
  import opened Basics
  import opened PeImage

  const MIN_TABLE_ENTRIES: nat := 100
  const MAX_TABLE_ENTRIES: nat := 0x100_0000
  const HARDENING: seq<nat> := [0x4000, 0x20, 0x40, 0x100]

  // ---- names -------------------------------------------------------------

  function Ascii(s: string): bytes {
    if s == "" then [] else [s[0] as nat % 256] + Ascii(s[1..])
  }

  function LowerBytes(s: bytes): (r: bytes)
    ensures |r| == |s|
  {
    if s == [] then [] else [if 65 <= s[0] <= 90 then s[0] + 32 else s[0]] + LowerBytes(s[1..])
  }

  predicate StartsWith(s: bytes, prefix: bytes) { |prefix| <= |s| && s[..|prefix|] == prefix }

  predicate IsVcRuntime(name: bytes) {
    var n := LowerBytes(name);
    || StartsWith(n, Ascii("vcruntime140")) || StartsWith(n, Ascii("msvcp140"))
    || StartsWith(n, Ascii("concrt140")) || StartsWith(n, Ascii("vccorlib140"))
  }

  predicate IsUcrt(name: bytes) {
    var n := LowerBytes(name);
    StartsWith(n, Ascii("api-ms-win-crt-")) || n == Ascii("ucrtbase.dll")
  }

  // ---- import directories ------------------------------------------------

  datatype Import = Import(name: bytes, delay: bool)

  /** Bytes of n descriptors: 20 each, 32 each in the delay-load directory. */
  function Extent(n: nat, delay: bool): nat { if delay then 32 * n else 20 * n }

  function Count(size: nat, delay: bool): nat { if delay then size / 32 else size / 20 }

  function NameRva(d: bytes, o: nat, delay: bool): nat
    requires o + Extent(1, delay) <= |d|
  {
    if delay then U32(d, o + 4) else U32(d, o + 12)
  }

  predicate IsLast(d: bytes, o: nat, delay: bool)
    requires o + Extent(1, delay) <= |d|
  {
    NameRva(d, o, delay) == 0 && (delay || (U32(d, o) == 0 && U32(d, o + 16) == 0))
  }

  function After<T>(first: seq<T>, rest: Result<seq<T>>): Result<seq<T>> {
    if rest.Ok? then Ok(first + rest.value) else rest
  }

  /** One descriptor: the terminating one, an unreadable name, or a name. */
  function ReadDescriptor(d: bytes, img: Image, o: nat, delay: bool): Result<Option<Import>>
    requires InFile(img, |d|) && o + Extent(1, delay) <= |d|
  {
    if IsLast(d, o, delay) then Ok(None)
    else
      var name := CString(d, img, NameRva(d, o, delay));
      if name.Bad? then Bad(name.fault) else Ok(Some(Import(name.value, delay)))
  }

  /** The n descriptors from offset o on. */
  function Descriptors(d: bytes, img: Image, o: nat, n: nat, delay: bool): (r: seq<Result<Option<Import>>>)
    requires InFile(img, |d|) && o + Extent(n, delay) <= |d|
    ensures |r| == n
    ensures forall j :: 0 <= j < n ==> r[j] == ReadDescriptor(d, img, o + Extent(j, delay), delay)
  {
    seq(n, j requires 0 <= j < n => ReadDescriptor(d, img, o + Extent(j, delay), delay))
  }

  /** The names before the terminating descriptor. */
  function NamesOf(rows: seq<Result<Option<Import>>>): Result<seq<Import>> {
    if rows == [] then Bad(NoLastDescriptor)
    else if rows[0].Bad? then Bad(rows[0].fault)
    else if rows[0].value.None? then Ok([])
    else After([rows[0].value.value], NamesOf(rows[1..]))
  }

  function DirectoryNames(d: bytes, img: Image, delay: bool): Result<seq<Import>>
    requires InFile(img, |d|)
  {
    var (rva, size) := Directory(d, img, if delay then 13 else 1);
    if rva == 0 then Ok([])
    else if size < Extent(1, delay) then Bad(ImportDirectoryTooSmall)
    else
      var o := Span(img, rva, size);
      if o.Bad? then Bad(o.fault)
      else
        SpanIsLoadersView(d, img, rva, size);
        NamesOf(Descriptors(d, img, o.value, Count(size, delay), delay))
  }

  function Imports(d: bytes, img: Image): Result<seq<Import>>
    requires InFile(img, |d|)
  {
    var plain := DirectoryNames(d, img, false);
    if plain.Bad? then plain else After(plain.value, DirectoryNames(d, img, true))
  }

  method ReadDirectoryNames(d: bytes, img: Image, delay: bool) returns (r: Result<seq<Import>>)
    requires InFile(img, |d|)
    ensures r == DirectoryNames(d, img, delay)
  {
    var (rva, size) := Directory(d, img, if delay then 13 else 1);
    if rva == 0 { return Ok([]); }
    if size < Extent(1, delay) { return Bad(ImportDirectoryTooSmall); }
    var o := Span(img, rva, size);
    if o.Bad? { return Bad(o.fault); }
    SpanIsLoadersView(d, img, rva, size);
    r := ReadNames(d, img, o.value, Count(size, delay), delay);
  }

  method ReadNames(d: bytes, img: Image, o: nat, count: nat, delay: bool) returns (r: Result<seq<Import>>)
    requires InFile(img, |d|) && o + Extent(count, delay) <= |d|
    ensures r == NamesOf(Descriptors(d, img, o, count, delay))
  {
    var names: seq<Import> := [];
    ghost var rows := Descriptors(d, img, o, count, delay);
    AfterNothing(NamesOf(rows));
    assert rows[0..] == rows;
    for i := 0 to count
      invariant NamesOf(rows) == After(names, NamesOf(rows[i..]))
    {
      NamesStep(names, rows[i..]);
      assert rows[i..][1..] == rows[i + 1..];
      var at := o + Extent(i, delay);
      if IsLast(d, at, delay) { return Ok(names); }
      var name := CString(d, img, NameRva(d, at, delay));
      if name.Bad? { return Bad(name.fault); }
      names := names + [Import(name.value, delay)];
    }
    return Bad(NoLastDescriptor);
  }

  lemma NamesStep(names: seq<Import>, rows: seq<Result<Option<Import>>>)
    requires rows != []
    ensures After(names, NamesOf(rows)) ==
            if rows[0].Bad? then Bad(rows[0].fault)
            else if rows[0].value.None? then Ok(names)
            else After(names + [rows[0].value.value], NamesOf(rows[1..]))
  {
    assert names + [] == names;
    if rows[0].Ok? && rows[0].value.Some? {
      AfterAfter(names, [rows[0].value.value], NamesOf(rows[1..]));
    }
  }

  lemma AfterNothing<T>(r: Result<seq<T>>)
    ensures After([], r) == r
  {
    if r.Ok? { assert [] + r.value == r.value; }
  }

  lemma AfterAfter<T>(a: seq<T>, b: seq<T>, r: Result<seq<T>>)
    ensures After(a, After(b, r)) == After(a + b, r)
  {
    if r.Ok? { assert a + (b + r.value) == a + b + r.value; }
  }

  method ReadImports(d: bytes, img: Image) returns (r: Result<seq<Import>>)
    requires InFile(img, |d|)
    ensures r == Imports(d, img)
  {
    var plain := ReadDirectoryNames(d, img, false);
    if plain.Bad? { return plain; }
    var delayed := ReadDirectoryNames(d, img, true);
    return After(plain.value, delayed);
  }

  // ---- load configuration ------------------------------------------------

  predicate HasBit(x: nat, bit: nat)
    requires bit > 0
  {
    (x / bit) % 2 == 1
  }

  datatype LoadConfig = LoadConfig(disp: nat, tab: nat, cnt: nat, flags: nat)

  function ReadLoadConfig(d: bytes, img: Image): Result<LoadConfig>
    requires InFile(img, |d|)
  {
    var (rva, size) := Directory(d, img, 10);
    if rva == 0 || size < 0x94 then Bad(LoadConfigMissing)
    else
      var o := Span(img, rva, size);
      if o.Bad? then Bad(o.fault)
      else
        SpanIsLoadersView(d, img, rva, size);
        var declared := U32(d, o.value);
        if declared < 0x94 || declared > size then Bad(LoadConfigSize)
        else
          var lc := LoadConfig(U64(d, o.value + 0x78), U64(d, o.value + 0x80),
                               U64(d, o.value + 0x88), U32(d, o.value + 0x90));
          if !HasBit(lc.flags, 0x100) || !HasBit(lc.flags, 0x400) then Bad(GuardFlagsMissing) else Ok(lc)
  }

  // ---- guard function table ----------------------------------------------

  /** Bytes per table row: four, and the extra count in the top four flag bits. */
  function Stride(lc: LoadConfig): nat { 4 + (lc.flags / 0x1000_0000) % 16 }

  lemma RowFits(i: nat, cnt: nat, stride: nat)
    requires i < cnt && 4 <= stride
    ensures i * stride + 4 <= cnt * stride
  {
    assert (i + 1) * stride <= cnt * stride;
  }

  predicate TableAt(d: bytes, to: nat, lc: LoadConfig) { to + lc.cnt * Stride(lc) <= |d| }

  function Entry(d: bytes, to: nat, lc: LoadConfig, i: nat): nat
    requires TableAt(d, to, lc) && i < lc.cnt
  {
    RowFits(i, lc.cnt, Stride(lc));
    U32(d, to + i * Stride(lc))
  }

  predicate InBackedText(text: Section, e: nat) { text.va <= e < text.va + text.Backed() }

  ghost predicate Sorted(d: bytes, to: nat, lc: LoadConfig, n: nat)
    requires TableAt(d, to, lc) && n <= lc.cnt
  {
    forall i :: 1 <= i < n ==> Entry(d, to, lc, i - 1) < Entry(d, to, lc, i)
  }

  ghost predicate AllInText(d: bytes, to: nat, lc: LoadConfig, text: Section, n: nat)
    requires TableAt(d, to, lc) && n <= lc.cnt
  {
    forall i :: 0 <= i < n ==> InBackedText(text, Entry(d, to, lc, i))
  }

  const DOT_TEXT: bytes := [0x2E, 0x74, 0x65, 0x78, 0x74]

  ghost function GuardTable(d: bytes, img: Image, lc: LoadConfig): (r: Result<Section>)
    requires InFile(img, |d|)
    ensures r.Ok? ==> r.value in img.secs
  {
    if lc.cnt < MIN_TABLE_ENTRIES then Bad(TooFewEntries)
    else if lc.cnt >= MAX_TABLE_ENTRIES then Bad(CountNotCredible)
    else if lc.tab < img.base then Bad(TableBelowBase)
    else
      var to := Span(img, lc.tab - img.base, lc.cnt * Stride(lc));
      if to.Bad? then Bad(to.fault)
      else
        SpanIsLoadersView(d, img, lc.tab - img.base, lc.cnt * Stride(lc));
        var text := Named(img.secs, DOT_TEXT);
        if text.Bad? then text
        else if !Sorted(d, to.value, lc, lc.cnt) then Bad(TableUnsorted)
        else if !AllInText(d, to.value, lc, text.value, lc.cnt) then Bad(EntriesOutsideText)
        else text
  }

  method CheckGuardTable(d: bytes, img: Image, lc: LoadConfig) returns (r: Result<Section>)
    requires InFile(img, |d|)
    ensures r == GuardTable(d, img, lc)
  {
    if lc.cnt < MIN_TABLE_ENTRIES { return Bad(TooFewEntries); }
    if lc.cnt >= MAX_TABLE_ENTRIES { return Bad(CountNotCredible); }
    if lc.tab < img.base { return Bad(TableBelowBase); }
    var to := Span(img, lc.tab - img.base, lc.cnt * Stride(lc));
    if to.Bad? { return Bad(to.fault); }
    SpanIsLoadersView(d, img, lc.tab - img.base, lc.cnt * Stride(lc));
    var text := Named(img.secs, DOT_TEXT);
    if text.Bad? { return text; }
    var fault := ScanTable(d, to.value, lc, text.value);
    return if fault.Some? then Bad(fault.value) else text;
  }

  /** One pass: a row not above the one before it stops the scan; rows outside
      the file-backed text are counted and reported at the end. */
  method ScanTable(d: bytes, to: nat, lc: LoadConfig, text: Section) returns (fault: Option<Fault>)
    requires TableAt(d, to, lc)
    ensures fault == if !Sorted(d, to, lc, lc.cnt) then Some(TableUnsorted)
                     else if !AllInText(d, to, lc, text, lc.cnt) then Some(EntriesOutsideText)
                     else None
  {
    var outside := 0;
    var prev: int := -1;
    for i := 0 to lc.cnt
      invariant Sorted(d, to, lc, i)
      invariant prev == if i == 0 then -1 else Entry(d, to, lc, i - 1)
      invariant outside >= 0 && (outside == 0 <==> AllInText(d, to, lc, text, i))
    {
      var e := Entry(d, to, lc, i);
      if !InBackedText(text, e) { outside := outside + 1; }
      if e <= prev {
        assert !Sorted(d, to, lc, lc.cnt);
        return Some(TableUnsorted);
      }
      prev := e;
    }
    return if outside > 0 then Some(EntriesOutsideText) else None;
  }

  // ---- the loader's view of both -----------------------------------------

  /** Little-endian fields of what the loader maps at an address of a section. */
  function LoadedU32(d: bytes, s: Section, rva: nat): nat
    requires s.raw + s.rawsz <= |d| && s.va <= rva && rva + 4 <= s.va + s.vsz
  {
    LoadedByte(d, s, rva) + 0x100 * LoadedByte(d, s, rva + 1) +
    0x1_0000 * LoadedByte(d, s, rva + 2) + 0x100_0000 * LoadedByte(d, s, rva + 3)
  }

  lemma SpanReadsLoaded(d: bytes, img: Image, rva: nat, size: nat, k: nat)
    requires InFile(img, |d|) && Span(img, rva, size).Ok? && k + 4 <= size
    ensures var o := Span(img, rva, size).value; var s := Home(img.secs, rva).value;
            && Home(img.secs, rva).Some? && s.raw + s.rawsz <= |d|
            && s.va <= rva + k && rva + k + 4 <= s.va + s.vsz && o + k + 4 <= |d|
            && U32(d, o + k) == LoadedU32(d, s, rva + k)
  {
    SpanIsLoadersView(d, img, rva, size);
  }

  function LoadedU64(d: bytes, s: Section, rva: nat): nat
    requires s.raw + s.rawsz <= |d| && s.va <= rva && rva + 8 <= s.va + s.vsz
  {
    LoadedU32(d, s, rva) + B8 * LoadedU32(d, s, rva + 4)
  }

  lemma SpanReadsLoaded64(d: bytes, img: Image, rva: nat, size: nat, k: nat)
    requires InFile(img, |d|) && Span(img, rva, size).Ok? && k + 8 <= size
    ensures var o := Span(img, rva, size).value; var s := Home(img.secs, rva).value;
            && Home(img.secs, rva).Some? && s.raw + s.rawsz <= |d|
            && s.va <= rva + k && rva + k + 8 <= s.va + s.vsz && o + k + 8 <= |d|
            && U64(d, o + k) == LoadedU64(d, s, rva + k)
  {
    SpanReadsLoaded(d, img, rva, size, k);
    SpanReadsLoaded(d, img, rva, size, k + 4);
  }

  /** What an accepted load configuration was read from. */
  lemma LoadConfigFields(d: bytes, img: Image)
    requires InFile(img, |d|) && ReadLoadConfig(d, img).Ok?
    ensures var lc := ReadLoadConfig(d, img).value; var (rva, size) := Directory(d, img, 10);
            && size >= 0x94 && Span(img, rva, size).Ok?
            && var o := Span(img, rva, size).value;
               && o + 0x94 <= |d|
               && lc == LoadConfig(U64(d, o + 0x78), U64(d, o + 0x80), U64(d, o + 0x88), U32(d, o + 0x90))
               && HasBit(lc.flags, 0x100) && HasBit(lc.flags, 0x400)
  {
    var (rva, size) := Directory(d, img, 10);
    SpanIsLoadersView(d, img, rva, size);
  }

  /** The guard fields are what the loader maps at offsets 0x78, 0x80, 0x88 and
      0x90 of the load configuration. */
  lemma LoadConfigIsLoadersView(d: bytes, img: Image)
    requires InFile(img, |d|) && ReadLoadConfig(d, img).Ok?
    ensures var lc := ReadLoadConfig(d, img).value; var rva := Directory(d, img, 10).0;
            var home := Home(img.secs, rva);
            && home.Some? && home.value.raw + home.value.rawsz <= |d|
            && home.value.va <= rva && rva + 0x94 <= home.value.va + home.value.Backed()
            && lc == LoadConfig(LoadedU64(d, home.value, rva + 0x78), LoadedU64(d, home.value, rva + 0x80),
                                LoadedU64(d, home.value, rva + 0x88), LoadedU32(d, home.value, rva + 0x90))
            && HasBit(lc.flags, 0x100) && HasBit(lc.flags, 0x400)
  {
    hide U32, U64, LoadedU32, LoadedU64, Span, Home, ReadLoadConfig;
    var (rva, size) := Directory(d, img, 10);
    LoadConfigFields(d, img);
    SpanIsLoadersView(d, img, rva, size);
    SpanReadsLoaded64(d, img, rva, size, 0x78);
    SpanReadsLoaded64(d, img, rva, size, 0x80);
    SpanReadsLoaded64(d, img, rva, size, 0x88);
    SpanReadsLoaded(d, img, rva, size, 0x90);
  }

  /** Row i of the guard table is what the loader maps at the table's address
      plus i strides. */
  lemma EntryIsLoadersView(d: bytes, img: Image, lc: LoadConfig, i: nat)
    requires InFile(img, |d|) && lc.tab >= img.base && i < lc.cnt
    requires Span(img, lc.tab - img.base, lc.cnt * Stride(lc)).Ok?
    ensures var rva := lc.tab - img.base; var to := Span(img, rva, lc.cnt * Stride(lc)).value;
            var home := Home(img.secs, rva); var at := rva + i * Stride(lc);
            && TableAt(d, to, lc) && home.Some? && home.value.raw + home.value.rawsz <= |d|
            && home.value.va <= at && at + 4 <= home.value.va + home.value.vsz
            && Entry(d, to, lc, i) == LoadedU32(d, home.value, at)
  {
    hide U32, LoadedU32, Span, Home;
    SpanIsLoadersView(d, img, lc.tab - img.base, lc.cnt * Stride(lc));
    RowFits(i, lc.cnt, Stride(lc));
    SpanReadsLoaded(d, img, lc.tab - img.base, lc.cnt * Stride(lc), i * Stride(lc));
  }

  // ---- guarded calls -----------------------------------------------------

  /** `call` or `jmp` through [rip + disp32] aimed at the dispatch pointer. */
  predicate IsGuardedCall(code: bytes, va: nat, target: nat, i: nat)
    requires i + 6 <= |code|
  {
    code[i] == 0xFF && (code[i + 1] == 0x15 || code[i + 1] == 0x25) && va + i + 6 + I32(code, i + 2) == target
  }

  ghost function CallSites(code: bytes, va: nat, target: nat): set<nat> {
    set i: nat | i + 6 <= |code| && IsGuardedCall(code, va, target, i)
  }

  method CountCalls(code: bytes, va: nat, target: nat) returns (calls: nat)
    ensures calls == |CallSites(code, va, target)|
  {
    calls := 0;
    var last := |code| - 6;
    var i := 0;
    ghost var seen: set<nat> := {};
    while i < last + 1
      invariant 0 <= i && (last >= 0 ==> i <= last + 1)
      invariant seen == set k: nat | k < i && k + 6 <= |code| && IsGuardedCall(code, va, target, k)
      invariant calls == |seen|
    {
      if IsGuardedCall(code, va, target, i) {
        calls := calls + 1;
        seen := seen + {i};
      }
      i := i + 1;
    }
    assert seen == CallSites(code, va, target);
  }

  lemma SubsetIsSmaller<T>(a: set<T>, b: set<T>)
    requires a <= b
    ensures |a| <= |b|
  {
    assert b == a + (b - a);
  }

  /** However the code is cut into instructions, no more guarded calls are found
      at their starts than the byte-by-byte count. */
  lemma CountIsFloorOfAnyDisassembly(code: bytes, va: nat, target: nat, starts: set<nat>)
    ensures |set i | i in starts && i + 6 <= |code| && IsGuardedCall(code, va, target, i)|
            <= |CallSites(code, va, target)|
  {
    var found := set i | i in starts && i + 6 <= |code| && IsGuardedCall(code, va, target, i);
    SubsetIsSmaller(found, CallSites(code, va, target));
  }

  // ---- the verdict -------------------------------------------------------

  datatype Report = Report(imports: nat, ucrt: nat, dllc: nat, entries: nat, calls: nat)

  function Forwarders(names: seq<Import>): seq<Import> {
    if names == [] then []
    else (if IsUcrt(names[0].name) then [names[0]] else []) + Forwarders(names[1..])
  }

  predicate Hardened(dllc: nat) { forall i :: 0 <= i < |HARDENING| ==> HARDENING[i] > 0 && HasBit(dllc, HARDENING[i]) }

  function TextCode(d: bytes, text: Section): bytes
    requires text.raw + text.rawsz <= |d|
  {
    d[text.raw..text.raw + text.Backed()]
  }

  ghost function Verdict(d: bytes, minCalls: int): Result<Report> {
    var parsed := Parse(d);
    if parsed.Bad? then Bad(parsed.fault)
    else
      ParsedIsInFile(d);
      JudgeImports(d, parsed.value, minCalls)
  }

  /** What is wrong with the imported names or the hardening bits, if anything. */
  function LinkageFault(names: seq<Import>, dllc: nat): Option<Fault> {
    if exists n :: n in names && IsVcRuntime(n.name) then Some(ForbiddenRuntime)
    else if Forwarders(names) == [] then Some(NoUniversalCrt)
    else if !Hardened(dllc) then Some(LacksHardening)
    else None
  }

  ghost function JudgeImports(d: bytes, img: Image, minCalls: int): Result<Report>
    requires InFile(img, |d|)
  {
    var names := Imports(d, img);
    if names.Bad? then Bad(names.fault)
    else
      var fault := LinkageFault(names.value, img.dllc);
      if fault.Some? then Bad(fault.value)
      else JudgeGuard(d, img, |names.value|, |Forwarders(names.value)|, minCalls)
  }

  ghost function JudgeGuard(d: bytes, img: Image, imports: nat, ucrt: nat, minCalls: int): Result<Report>
    requires InFile(img, |d|)
  {
    var config := ReadLoadConfig(d, img);
    if config.Bad? then Bad(config.fault)
    else
      var lc := config.value;
      var text := GuardTable(d, img, lc);
      if text.Bad? then Bad(text.fault)
      else JudgeCalls(d, img, lc, text.value, imports, ucrt, minCalls)
  }

  ghost function JudgeCalls(d: bytes, img: Image, lc: LoadConfig, text: Section, imports: nat, ucrt: nat, minCalls: int)
    : Result<Report>
    requires InFile(img, |d|) && text in img.secs
  {
    if lc.disp == 0 || lc.disp < img.base then Bad(NoDispatchPointer)
    else
      var pointer := Span(img, lc.disp - img.base, 8);
      if pointer.Bad? then Bad(pointer.fault)
      else
        var calls := |CallSites(TextCode(d, text), text.va, lc.disp - img.base)|;
        if calls < minCalls then Bad(TooFewCalls) else Ok(Report(imports, ucrt, img.dllc, lc.cnt, calls))
  }

  /** The whole check: for every byte string it returns a report or a fault. */
  method Check(d: bytes, minCalls: int) returns (r: Result<Report>)
    ensures r == Verdict(d, minCalls)
  {
    var parsed := ParseImage(d);
    if parsed.Bad? { return Bad(parsed.fault); }
    var img := parsed.value;
    ParsedIsInFile(d);
    var names := ReadImports(d, img);
    if names.Bad? { return Bad(names.fault); }
    var fault := LinkageFault(names.value, img.dllc);
    if fault.Some? { return Bad(fault.value); }
    r := CheckGuard(d, img, |names.value|, |Forwarders(names.value)|, minCalls);
  }

  method CheckGuard(d: bytes, img: Image, imports: nat, ucrt: nat, minCalls: int) returns (r: Result<Report>)
    requires InFile(img, |d|)
    ensures r == JudgeGuard(d, img, imports, ucrt, minCalls)
  {
    hide ReadLoadConfig, GuardTable, Span, CallSites;
    var config := ReadLoadConfig(d, img);
    if config.Bad? { return Bad(config.fault); }
    var lc := config.value;
    var text := CheckGuardTable(d, img, lc);
    if text.Bad? { return Bad(text.fault); }
    if lc.disp == 0 || lc.disp < img.base { return Bad(NoDispatchPointer); }
    var pointer := Span(img, lc.disp - img.base, 8);
    if pointer.Bad? { return Bad(pointer.fault); }
    var calls := CountCalls(TextCode(d, text.value), text.value.va, lc.disp - img.base);
    if calls < minCalls { return Bad(TooFewCalls); }
    return Ok(Report(imports, ucrt, img.dllc, lc.cnt, calls));
  }

  // ---- what is accepted ---------------------------------------------

  lemma {:induction false} SortedIsStrict(d: bytes, to: nat, lc: LoadConfig, i: nat, j: nat)
    requires TableAt(d, to, lc) && Sorted(d, to, lc, lc.cnt) && i < j < lc.cnt
    ensures Entry(d, to, lc, i) + (j - i) <= Entry(d, to, lc, j)
    decreases j
  {
    if i + 1 < j { SortedIsStrict(d, to, lc, i, j - 1); }
  }

  /** The guard table of an accepted image: read from file-backed bytes,
      strictly increasing, every row in file-backed text. */
  ghost predicate GuardFacts(d: bytes, img: Image, lc: LoadConfig, text: Section, to: nat) {
    && text in img.secs && text.name == DOT_TEXT
    && lc.tab >= img.base && Span(img, lc.tab - img.base, lc.cnt * Stride(lc)) == Ok(to)
    && TableAt(d, to, lc)
    && (forall i, j :: 0 <= i < j < lc.cnt ==> Entry(d, to, lc, i) < Entry(d, to, lc, j))
    && (forall i :: 0 <= i < lc.cnt ==> InBackedText(text, Entry(d, to, lc, i)))
  }

  lemma AcceptedTable(d: bytes, img: Image, lc: LoadConfig) returns (text: Section, to: nat)
    requires InFile(img, |d|) && GuardTable(d, img, lc).Ok?
    ensures GuardTable(d, img, lc) == Ok(text) && GuardFacts(d, img, lc, text, to)
    ensures MIN_TABLE_ENTRIES <= lc.cnt <= text.Backed() <= |d|
  {
    text := GuardTable(d, img, lc).value;
    to := Span(img, lc.tab - img.base, lc.cnt * Stride(lc)).value;
    SpanIsLoadersView(d, img, lc.tab - img.base, lc.cnt * Stride(lc));
    forall i, j | 0 <= i < j < lc.cnt ensures Entry(d, to, lc, i) < Entry(d, to, lc, j) {
      SortedIsStrict(d, to, lc, i, j);
    }
    SortedIsStrict(d, to, lc, 0, lc.cnt - 1);
    assert InBackedText(text, Entry(d, to, lc, 0)) && InBackedText(text, Entry(d, to, lc, lc.cnt - 1));
  }

  /** An accepted image has between 100 and as many guard rows as file-backed
      text has bytes, and the counted calls are all the matching offsets. */
  lemma AcceptedImage(d: bytes, minCalls: int) returns (img: Image, lc: LoadConfig, text: Section, to: nat)
    requires Verdict(d, minCalls).Ok?
    ensures Parse(d) == Ok(img) && InFile(img, |d|) && ReadLoadConfig(d, img) == Ok(lc)
    ensures GuardFacts(d, img, lc, text, to) && MIN_TABLE_ENTRIES <= lc.cnt <= text.Backed() <= |d|
    ensures var r := Verdict(d, minCalls).value;
            && r.entries == lc.cnt && minCalls <= r.calls && lc.disp > 0 && lc.disp >= img.base
            && r.calls == |CallSites(TextCode(d, text), text.va, lc.disp - img.base)|
  {
    img := Parse(d).value;
    ParsedIsInFile(d);
    lc, text, to := AcceptedGuard(d, img, |Imports(d, img).value|, |Forwarders(Imports(d, img).value)|, minCalls);
  }

  lemma AcceptedGuard(d: bytes, img: Image, imports: nat, ucrt: nat, minCalls: int)
    returns (lc: LoadConfig, text: Section, to: nat)
    requires InFile(img, |d|) && JudgeGuard(d, img, imports, ucrt, minCalls).Ok?
    ensures ReadLoadConfig(d, img) == Ok(lc) && GuardFacts(d, img, lc, text, to)
    ensures MIN_TABLE_ENTRIES <= lc.cnt <= text.Backed() <= |d|
    ensures var r := JudgeGuard(d, img, imports, ucrt, minCalls).value;
            && r.entries == lc.cnt && minCalls <= r.calls && lc.disp > 0 && lc.disp >= img.base
            && r.calls == |CallSites(TextCode(d, text), text.va, lc.disp - img.base)|
  {
    lc := ReadLoadConfig(d, img).value;
    var found := GuardTable(d, img, lc);
    assert JudgeGuard(d, img, imports, ucrt, minCalls) ==
           JudgeCalls(d, img, lc, found.value, imports, ucrt, minCalls);
    AcceptedCalls(d, img, lc, found.value, imports, ucrt, minCalls);
    text, to := AcceptedTable(d, img, lc);
  }

  lemma AcceptedCalls(d: bytes, img: Image, lc: LoadConfig, text: Section, imports: nat, ucrt: nat, minCalls: int)
    requires InFile(img, |d|) && text in img.secs && JudgeCalls(d, img, lc, text, imports, ucrt, minCalls).Ok?
    ensures var r := JudgeCalls(d, img, lc, text, imports, ucrt, minCalls).value;
            && r.entries == lc.cnt && minCalls <= r.calls && lc.disp > 0 && lc.disp >= img.base
            && r.calls == |CallSites(TextCode(d, text), text.va, lc.disp - img.base)|
  {}

  /** No accepted image imports the Visual C++ runtime, plainly or delay-loaded;
      every one imports a Universal CRT forwarder and has all four bits. */
  lemma AcceptedLinkage(d: bytes, minCalls: int) returns (img: Image, names: seq<Import>)
    requires Verdict(d, minCalls).Ok?
    ensures Parse(d) == Ok(img) && InFile(img, |d|) && Imports(d, img) == Ok(names)
    ensures forall n :: n in names ==> !IsVcRuntime(n.name)
    ensures exists n :: n in names && IsUcrt(n.name)
    ensures Hardened(img.dllc)
  {
    img := Parse(d).value;
    ParsedIsInFile(d);
    names := Imports(d, img).value;
    SomeForwarder(names);
  }

  lemma {:induction false} SomeForwarder(names: seq<Import>)
    requires Forwarders(names) != []
    ensures exists n :: n in names && IsUcrt(n.name)
  {
    if IsUcrt(names[0].name) {
      assert names[0] in names;
    } else {
      SomeForwarder(names[1..]);
      var n :| n in names[1..] && IsUcrt(n.name);
      assert n in names;
    }
  }
}
