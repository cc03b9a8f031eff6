/** What an accepted Windows exe is, down to its bytes: the layout the Microsoft PE
    Format specification gives for PE32+, and what the check asks of it. */
module PeMeaning {
  import opened Basics
  import opened PeImage
  import opened PeCheck

  /** n bytes from offset o on as a little-endian number. */
  ghost function Le(d: bytes, o: nat, n: nat): nat
    requires o + n <= |d|
    decreases n
  {
    if n == 0 then 0 else d[o] + 256 * Le(d, o + 1, n - 1)
  }

  lemma Reads16(d: bytes, o: nat)
    requires o + 2 <= |d|
    ensures U16(d, o) == Le(d, o, 2)
  {
    assert Le(d, o + 1, 1) == d[o + 1] + 256 * Le(d, o + 2, 0);
  }

  lemma Reads32(d: bytes, o: nat)
    requires o + 4 <= |d|
    ensures U32(d, o) == Le(d, o, 4)
  {
    Reads16(d, o);
    Reads16(d, o + 2);
    assert Le(d, o, 4) == d[o] + 256 * Le(d, o + 1, 3);
    assert Le(d, o + 1, 3) == d[o + 1] + 256 * Le(d, o + 2, 2);
    assert Le(d, o, 2) == d[o] + 256 * Le(d, o + 1, 1);
    assert Le(d, o + 1, 1) == d[o + 1] + 256 * Le(d, o + 2, 0);
  }

  lemma Reads64(d: bytes, o: nat)
    requires o + 8 <= |d|
    ensures U64(d, o) == Le(d, o, 8)
  {
    Reads32(d, o);
    Reads32(d, o + 4);
    assert Le(d, o, 4) == d[o] + 256 * (d[o + 1] + 256 * (d[o + 2] + 256 * (d[o + 3] + 256 * Le(d, o + 4, 0)))) by {
      assert Le(d, o + 1, 3) == d[o + 1] + 256 * Le(d, o + 2, 2);
      assert Le(d, o + 2, 2) == d[o + 2] + 256 * Le(d, o + 3, 1);
    }
    assert Le(d, o, 8) == d[o] + 256 * (d[o + 1] + 256 * (d[o + 2] + 256 * (d[o + 3] + 256 * Le(d, o + 4, 4)))) by {
      assert Le(d, o + 1, 7) == d[o + 1] + 256 * Le(d, o + 2, 6);
      assert Le(d, o + 2, 6) == d[o + 2] + 256 * Le(d, o + 3, 5);
    }
  }

  lemma FourBytesBelow(d: bytes, o: nat)
    requires o + 4 <= |d|
    ensures Le(d, o, 4) < 0x1_0000_0000
  {
    Reads32(d, o);
  }

  // ---- headers -----------------------------------------------------------

  /** The 40 bytes from offset s on are a section header that says so. */
  ghost predicate IsSection(d: bytes, s: nat, sec: Section) {
    && s + 40 <= |d|
    && sec.vsz == Le(d, s + 8, 4) && sec.va == Le(d, s + 12, 4)
    && sec.rawsz == Le(d, s + 16, 4) && sec.raw == Le(d, s + 20, 4)
    && sec.raw + sec.rawsz <= |d|
    && IsPadded(d[s..s + 8], sec.name)
  }

  /** The field is the name and then zeros, and the name does not end in one. */
  ghost predicate IsPadded(field: bytes, name: bytes) {
    && |name| <= |field| && field[..|name|] == name
    && (forall i :: |name| <= i < |field| ==> field[i] == 0)
    && (name != [] ==> name[|name| - 1] != 0)
  }

  ghost predicate IsHeader(d: bytes, pe: nat, optsz: nat, img: Image) {
    && 64 <= |d| && d[0] == 77 && d[1] == 90 && pe == Le(d, 60, 4)
    && pe + 24 <= |d| && d[pe] == 80 && d[pe + 1] == 69 && d[pe + 2] == 0 && d[pe + 3] == 0
    && optsz == Le(d, pe + 20, 2) && 112 <= optsz && img.opt == pe + 24 && img.opt + optsz <= |d|
    && Le(d, img.opt, 2) == 523 && img.ndirs == Le(d, img.opt + 108, 4) && 112 + 8 * img.ndirs <= optsz
    && img.base == Le(d, img.opt + 24, 8) && img.entry == Le(d, img.opt + 16, 4) && img.dllc == Le(d, img.opt + 70, 2)
    && |img.secs| == Le(d, pe + 6, 2)
  }

  ghost predicate IsLayout(d: bytes, pe: nat, optsz: nat, img: Image) {
    && IsHeader(d, pe, optsz, img)
    && forall i :: 0 <= i < |img.secs| ==> IsSection(d, img.opt + optsz + 40 * i, img.secs[i])
  }

  lemma {:induction false} TrimNulsIff(field: bytes, name: bytes)
    ensures TrimNuls(field) == name <==> IsPadded(field, name)
  {
    if field != [] && field[|field| - 1] == 0 {
      var init := field[..|field| - 1];
      TrimNulsIff(init, name);
      if IsPadded(field, name) {
        assert |name| != |field|;
        assert init[..|name|] == name;
      }
      if IsPadded(init, name) { assert field[..|name|] == name; }
    } else {
      if IsPadded(field, name) { assert |name| == |field| && field[..|name|] == field; }
      assert field[..|field|] == field;
    }
  }

  lemma SectionIff(d: bytes, s: nat, sec: Section)
    ensures ReadSection(d, s) == Ok(sec) <==> IsSection(d, s, sec)
  {
    hide U32, TrimNuls, IsPadded, Le;
    if s + 40 <= |d| {
      Reads32(d, s + 8);
      Reads32(d, s + 12);
      Reads32(d, s + 16);
      Reads32(d, s + 20);
      TrimNulsIff(d[s..s + 8], sec.name);
    }
  }

  lemma {:induction false} SectionsIff(d: bytes, at: nat, n: nat, secs: seq<Section>)
    ensures ReadSections(d, at, n) == Ok(secs) <==>
            |secs| == n && forall i :: 0 <= i < n ==> IsSection(d, at + 40 * i, secs[i])
  {
    hide ReadSection, IsSection;
    if n > 0 {
      if |secs| == n {
        var init := secs[..n - 1];
        SectionsIff(d, at, n - 1, init);
        SectionIff(d, at + 40 * (n - 1), secs[n - 1]);
        assert secs == init + [secs[n - 1]];
      }
      if ReadSections(d, at, n - 1).Ok? { SectionsIff(d, at, n - 1, ReadSections(d, at, n - 1).value); }
    }
  }

  /** A file is parsed to an image exactly when it is laid out as that image. */
  lemma ParseIff(d: bytes, img: Image)
    ensures Parse(d) == Ok(img) <==> exists pe, optsz :: IsLayout(d, pe, optsz, img)
  {
    hide U16, U32, U64, Le, IsSection, ReadSections;
    if |d| >= 64 {
      Reads32(d, 60);
      var pe := U32(d, 60);
      SignaturesMean(d, pe);
      if pe + 24 <= |d| {
        Reads16(d, pe + 6);
        Reads16(d, pe + 20);
        var optsz := U16(d, pe + 20);
        if d[..2] == MZ && d[pe..pe + 4] == PE00 { OptionalIff(d, pe, optsz, img); }
      }
    }
  }

  lemma SignaturesMean(d: bytes, pe: nat)
    requires |d| >= 64
    ensures d[..2] == MZ <==> d[0] == 77 && d[1] == 90
    ensures pe + 24 <= |d| ==>
              (d[pe..pe + 4] == PE00 <==> d[pe] == 80 && d[pe + 1] == 69 && d[pe + 2] == 0 && d[pe + 3] == 0)
  {
    if pe + 24 <= |d| { assert d[pe..pe + 4] == [d[pe], d[pe + 1], d[pe + 2], d[pe + 3]]; }
    assert d[..2] == [d[0], d[1]];
  }

  lemma OptionalIff(d: bytes, pe: nat, optsz: nat, img: Image)
    requires 64 <= |d| && d[0] == 77 && d[1] == 90 && pe == Le(d, 60, 4) && pe + 24 <= |d|
    requires d[pe] == 80 && d[pe + 1] == 69 && d[pe + 2] == 0 && d[pe + 3] == 0 && optsz == Le(d, pe + 20, 2)
    ensures ParseOptional(d, pe + 24, optsz, Le(d, pe + 6, 2)) == Ok(img) <==> IsLayout(d, pe, optsz, img)
  {
    hide U16, U32, U64, Le, IsSection, ReadSections;
    var opt := pe + 24;
    if 112 <= optsz && opt + optsz <= |d| {
      Reads16(d, opt);
      Reads32(d, opt + 108);
      Reads64(d, opt + 24);
      Reads32(d, opt + 16);
      Reads16(d, opt + 70);
      SectionsIff(d, opt + optsz, Le(d, pe + 6, 2), img.secs);
    }
  }

  // ---- lookups -----------------------------------------------------------

  ghost predicate FirstHolds(secs: seq<Section>, rva: nat, i: nat) {
    && i < |secs| && secs[i].va <= rva < secs[i].va + secs[i].vsz
    && forall k :: 0 <= k < i ==> !(secs[k].va <= rva < secs[k].va + secs[k].vsz)
  }

  /** Bytes of a section that come from the file. */
  ghost function FileBacked(s: Section): nat { if s.vsz < s.rawsz then s.vsz else s.rawsz }

  lemma HomeIff(secs: seq<Section>, rva: nat, s: Section)
    ensures Home(secs, rva) == Some(s) <==> IsHome(secs, rva, s)
  {
    if i: nat :| FirstHolds(secs, rva, i) && secs[i] == s { HomeIsFirst(secs, rva, i); }
    if Home(secs, rva) == Some(s) { var i := FirstHolderOf(secs, rva); }
  }

  lemma {:induction false} FirstHolderOf(secs: seq<Section>, rva: nat) returns (i: nat)
    requires Home(secs, rva).Some?
    ensures FirstHolds(secs, rva, i) && secs[i] == Home(secs, rva).value
  {
    if secs[0].Holds(rva) {
      i := 0;
    } else {
      i := FirstHolderOf(secs[1..], rva);
      assert forall k :: 0 < k < |secs| ==> secs[k] == secs[1..][k - 1];
      i := i + 1;
    }
  }

  /** A span is granted, at offset o, exactly when it is not empty and the first
      section that holds its start backs all of it from there. */
  lemma SpanIff(img: Image, rva: nat, size: nat, o: nat)
    ensures Span(img, rva, size) == Ok(o) <==>
            size > 0 && exists s :: IsHome(img.secs, rva, s) && Grants(s, rva, size, o)
  {
    hide Home, FirstHolds;
    if Home(img.secs, rva).Some? { HomeIff(img.secs, rva, Home(img.secs, rva).value); }
    if s :| IsHome(img.secs, rva, s) && Grants(s, rva, size, o) { HomeIff(img.secs, rva, s); }
  }

  /** s is the first section in table order to hold the address. */
  ghost predicate IsHome(secs: seq<Section>, rva: nat, s: Section) {
    exists i: nat :: FirstHolds(secs, rva, i) && secs[i] == s
  }

  ghost predicate Grants(s: Section, rva: nat, size: nat, o: nat) {
    s.va <= rva && rva + size <= s.va + FileBacked(s) && o == s.raw + (rva - s.va)
  }

  /** A string is read exactly when it stands, free of zeros and with a zero after
      it, in the file-backed part of the first section that holds its start. */
  lemma CStringIff(d: bytes, img: Image, rva: nat, t: bytes)
    requires InFile(img, |d|)
    ensures CString(d, img, rva) == Ok(t) <==>
            exists s :: IsHome(img.secs, rva, s) && StandsAt(d, s, rva, t)
  {
    hide Home, IsHome, FindNul, StandsAt, InFile;
    if Home(img.secs, rva).Some? {
      var s := Home(img.secs, rva).value;
      HomeIff(img.secs, rva, s);
      HomeFits(d, img, rva);
      StringIff(d, s, rva, t);
    }
    if s :| IsHome(img.secs, rva, s) && StandsAt(d, s, rva, t) { HomeIff(img.secs, rva, s); }
  }

  lemma HomeFits(d: bytes, img: Image, rva: nat)
    requires InFile(img, |d|) && Home(img.secs, rva).Some?
    ensures var s := Home(img.secs, rva).value; s.va <= rva && s.raw + s.rawsz <= |d|
  {}

  ghost predicate StandsAt(d: bytes, s: Section, rva: nat, t: bytes) {
    && s.va <= rva
    && var o, end := s.raw + (rva - s.va), s.raw + FileBacked(s);
       && end <= |d| && o + |t| < end && d[o..o + |t|] == t && 0 !in t && d[o + |t|] == 0
  }

  lemma StringIff(d: bytes, s: Section, rva: nat, t: bytes)
    requires s.va <= rva && s.raw + s.rawsz <= |d|
    ensures var o := s.raw + (rva - s.va);
            FindNul(d, o, s.raw + s.Backed()).Some? && d[o..FindNul(d, o, s.raw + s.Backed()).value] == t <==>
            StandsAt(d, s, rva, t)
  {
    hide FindNul;
    var o, end := s.raw + (rva - s.va), s.raw + s.Backed();
    var nul := FindNul(d, o, end);
    if StandsAt(d, s, rva, t) {
      var z := o + |t|;
      forall k | o <= k < z ensures d[k] != 0 { assert d[o..z][k - o] == d[k] && d[o..z][k - o] in t; }
      assert nul.Some? && nul.value == z;
    }
    if nul.Some? && d[o..nul.value] == t {
      forall x | x in t ensures x != 0 {
        var k :| 0 <= k < |t| && t[k] == x;
        assert d[o + k] == d[o..nul.value][k];
      }
    }
  }

  /** `section(".text")` finds the first section with those five letters as its name. */
  lemma NamedIff(secs: seq<Section>, s: Section)
    ensures Named(secs, DOT_TEXT) == Ok(s) <==> exists i: nat :: FirstText(secs, i) && secs[i] == s
  {
    if i: nat :| FirstText(secs, i) && secs[i] == s { NamedIsFirst(secs, DOT_TEXT, i); }
    if Named(secs, DOT_TEXT) == Ok(s) { var i := FirstTextOf(secs); }
  }

  ghost predicate FirstText(secs: seq<Section>, i: nat) {
    && i < |secs| && secs[i].name == [46, 116, 101, 120, 116]
    && forall k :: 0 <= k < i ==> secs[k].name != [46, 116, 101, 120, 116]
  }

  lemma {:induction false} FirstTextOf(secs: seq<Section>) returns (i: nat)
    requires Named(secs, DOT_TEXT).Ok?
    ensures FirstText(secs, i) && secs[i] == Named(secs, DOT_TEXT).value
  {
    if secs[0].name == DOT_TEXT {
      i := 0;
    } else {
      i := FirstTextOf(secs[1..]);
      assert forall k :: 0 < k < |secs| ==> secs[k] == secs[1..][k - 1];
      i := i + 1;
    }
  }

  lemma DirectoryIs(d: bytes, img: Image, idx: nat)
    requires InFile(img, |d|)
    ensures Directory(d, img, idx) ==
            if idx >= img.ndirs then (0, 0)
            else (Le(d, img.opt + 112 + 8 * idx, 4), Le(d, img.opt + 116 + 8 * idx, 4))
  {
    if idx < img.ndirs {
      Reads32(d, img.opt + 112 + 8 * idx);
      Reads32(d, img.opt + 116 + 8 * idx);
    }
  }

  // ---- imported names ----------------------------------------------------

  /** The byte is the character or, for a small letter, its capital. */
  ghost predicate SameLetter(b: byte, c: char) {
    b as int == c as int || ('a' <= c <= 'z' && b as int == c as int - 32)
  }

  ghost predicate BeginsAs(name: bytes, text: string) {
    |text| <= |name| && forall i :: 0 <= i < |text| ==> SameLetter(name[i], text[i])
  }

  ghost predicate IsLowerText(text: string) { forall i :: 0 <= i < |text| ==> text[i] < 'A' || 'Z' < text[i] < '\U{80}' }

  lemma {:induction false} LowerAt(s: bytes, i: nat)
    requires i < |s|
    ensures LowerBytes(s)[i] as int == if 65 <= s[i] <= 90 then s[i] + 32 else s[i]
  {
    if i > 0 { LowerAt(s[1..], i - 1); }
  }

  lemma {:induction false} AsciiAt(s: string, i: nat)
    requires i < |s|
    ensures |Ascii(s)| == |s| && Ascii(s)[i] == s[i] as nat % 256
  {
    if i > 0 { AsciiAt(s[1..], i - 1); } else { AsciiLength(s); }
  }

  lemma {:induction false} AsciiLength(s: string)
    ensures |Ascii(s)| == |s|
  {
    if s != "" { AsciiLength(s[1..]); }
  }

  lemma BeginsIff(name: bytes, text: string)
    requires IsLowerText(text)
    ensures StartsWith(LowerBytes(name), Ascii(text)) <==> BeginsAs(name, text)
    ensures LowerBytes(name) == Ascii(text) <==> |name| == |text| && BeginsAs(name, text)
  {
    hide LowerBytes, Ascii;
    var n, t := LowerBytes(name), Ascii(text);
    AsciiLength(text);
    forall i | 0 <= i < |text| && i < |name| ensures n[i] == t[i] <==> SameLetter(name[i], text[i]) {
      LowerAt(name, i);
      AsciiAt(text, i);
    }
    if StartsWith(n, t) {
      forall i | 0 <= i < |text| ensures SameLetter(name[i], text[i]) { assert n[..|t|][i] == t[i]; }
    }
    if BeginsAs(name, text) { assert n[..|t|] == t; }
  }

  ghost predicate IsRuntime(name: bytes) {
    || BeginsAs(name, "vcruntime140") || BeginsAs(name, "msvcp140")
    || BeginsAs(name, "concrt140") || BeginsAs(name, "vccorlib140")
  }

  ghost predicate IsForwarder(name: bytes) {
    BeginsAs(name, "api-ms-win-crt-") || (|name| == 12 && BeginsAs(name, "ucrtbase.dll"))
  }

  /** Which names are the Visual C++ runtime and which the Universal CRT: letter by
      letter, in whatever case. */
  lemma NamesIff(name: bytes)
    ensures IsVcRuntime(name) <==> IsRuntime(name)
    ensures IsUcrt(name) <==> IsForwarder(name)
  {
    hide LowerBytes, Ascii, BeginsAs, StartsWith;
    BeginsIff(name, "vcruntime140");
    BeginsIff(name, "msvcp140");
    BeginsIff(name, "concrt140");
    BeginsIff(name, "vccorlib140");
    BeginsIff(name, "api-ms-win-crt-");
    BeginsIff(name, "ucrtbase.dll");
  }

  ghost function ForwarderPlaces(names: seq<Import>): set<nat> {
    set i: nat | i < |names| && IsForwarder(names[i].name)
  }

  lemma PlacesOneMore(names: seq<Import>, n: Import)
    ensures ForwarderPlaces(names + [n]) == ForwarderPlaces(names) + if IsForwarder(n.name) then {|names|} else {}
  {
    hide IsForwarder;
  }

  /** How many of the names are forwarders. */
  lemma {:induction false} ForwardersCount(names: seq<Import>)
    ensures |Forwarders(names)| == |ForwarderPlaces(names)|
  {
    hide IsForwarder, IsUcrt, Forwarders, ForwarderPlaces;
    if names == [] {
      NoForwarders();
    } else {
      var n := |names| - 1;
      var init, last := names[..n], names[n];
      assert names == init + [last];
      ForwardersCount(init);
      NamesIff(last.name);
      ForwardersOneMore(init, last);
      PlacesOneMore(init, last);
      NotAPlace(init);
    }
  }

  lemma NoForwarders()
    ensures Forwarders([]) == [] && ForwarderPlaces([]) == {}
  {}

  lemma NotAPlace(names: seq<Import>)
    ensures |names| !in ForwarderPlaces(names)
  {}

  lemma {:induction false} ForwardersOneMore(names: seq<Import>, n: Import)
    ensures |Forwarders(names + [n])| == |Forwarders(names)| + if IsUcrt(n.name) then 1 else 0
  {
    hide IsUcrt;
    if names == [] {
      assert [n][1..] == [];
    } else {
      ForwardersOneMore(names[1..], n);
      assert (names + [n])[1..] == names[1..] + [n];
    }
  }

  // ---- import lists ------------------------------------------------------

  /** Bytes of one descriptor, ordinary or delay-load. */
  ghost function Width(delay: bool): nat { if delay then 32 else 20 }

  ghost predicate Ends(d: bytes, at: nat, delay: bool)
    requires at + Width(delay) <= |d|
  {
    if delay then Le(d, at + 4, 4) == 0
    else Le(d, at, 4) == 0 && Le(d, at + 12, 4) == 0 && Le(d, at + 16, 4) == 0
  }

  ghost function NameAt(d: bytes, at: nat, delay: bool): nat
    requires at + Width(delay) <= |d|
  {
    if delay then Le(d, at + 4, 4) else Le(d, at + 12, 4)
  }

  /** The names of the descriptors before the first terminating one, of `count`. */
  ghost predicate Lists(d: bytes, img: Image, o: nat, count: nat, delay: bool, names: seq<Import>)
    requires InFile(img, |d|) && o + Width(delay) * count <= |d|
  {
    && |names| < count && Ends(d, o + Width(delay) * |names|, delay)
    && forall j :: 0 <= j < |names| ==> Describes(d, img, o, delay, j, names[j])
  }

  ghost predicate Describes(d: bytes, img: Image, o: nat, delay: bool, j: nat, n: Import)
    requires InFile(img, |d|) && o + Width(delay) * (j + 1) <= |d|
  {
    var at := o + Width(delay) * j;
    !Ends(d, at, delay) && n.delay == delay && CString(d, img, NameAt(d, at, delay)) == Ok(n.name)
  }

  lemma {:induction false} NamesOfIff(rows: seq<Result<Option<Import>>>, names: seq<Import>)
    ensures NamesOf(rows) == Ok(names) <==>
            && |names| < |rows| && rows[|names|] == Ok(None)
            && forall j :: 0 <= j < |names| ==> rows[j] == Ok(Some(names[j]))
  {
    if rows != [] && rows[0].Ok? && rows[0].value.Some? {
      var rest := NamesOf(rows[1..]);
      if names != [] {
        NamesOfIff(rows[1..], names[1..]);
        assert names == [names[0]] + names[1..];
        if rest.Ok? && NamesOf(rows) == Ok(names) { assert names[1..] == rest.value; }
        forall j | 0 < j < |rows| ensures rows[j] == rows[1..][j - 1] {}
        forall j | 0 < j < |names| ensures names[j] == names[1..][j - 1] {}
      }
    }
  }

  lemma RowMeans(d: bytes, img: Image, at: nat, delay: bool)
    requires InFile(img, |d|) && at + Width(delay) <= |d|
    ensures IsLast(d, at, delay) <==> Ends(d, at, delay)
    ensures NameRva(d, at, delay) == NameAt(d, at, delay)
  {
    hide U32, Le;
    Reads32(d, at);
    Reads32(d, at + 4);
    Reads32(d, at + 12);
    Reads32(d, at + 16);
  }

  lemma ListsIff(d: bytes, img: Image, o: nat, count: nat, delay: bool, names: seq<Import>)
    requires InFile(img, |d|) && o + Width(delay) * count <= |d|
    ensures NamesOf(Descriptors(d, img, o, count, delay)) == Ok(names) <==> Lists(d, img, o, count, delay, names)
  {
    hide IsLast, Ends, NameAt, NameRva, CString, InFile, NamesOf;
    var rows := Descriptors(d, img, o, count, delay);
    NamesOfIff(rows, names);
    forall j | 0 <= j < count
      ensures rows[j] == Ok(None) <==> Ends(d, o + Width(delay) * j, delay)
      ensures j < |names| ==> (rows[j] == Ok(Some(names[j])) <==> Describes(d, img, o, delay, j, names[j]))
    {
      RowMeans(d, img, o + Width(delay) * j, delay);
    }
  }

  /** The names of one import directory: none without it, else the list it holds. */
  ghost predicate IsNames(d: bytes, img: Image, delay: bool, names: seq<Import>)
    requires InFile(img, |d|)
  {
    var dir := Directory(d, img, if delay then 13 else 1);
    IsNamesIn(d, img, dir.0, dir.1, delay, names)
  }

  ghost predicate IsNamesIn(d: bytes, img: Image, rva: nat, size: nat, delay: bool, names: seq<Import>)
    requires InFile(img, |d|)
  {
    if rva == 0 then names == []
    else Width(delay) <= size && exists o :: ListedAt(d, img, rva, size, delay, o, names)
  }

  ghost predicate ListedAt(d: bytes, img: Image, rva: nat, size: nat, delay: bool, o: nat, names: seq<Import>)
    requires InFile(img, |d|)
  {
    && Span(img, rva, size) == Ok(o) && o + Width(delay) * (size / Width(delay)) <= |d|
    && Lists(d, img, o, size / Width(delay), delay, names)
  }

  lemma DirectoryNamesIff(d: bytes, img: Image, delay: bool, names: seq<Import>)
    requires InFile(img, |d|)
    ensures DirectoryNames(d, img, delay) == Ok(names) <==> IsNames(d, img, delay, names)
  {
    hide Directory, IsNamesIn, Span, Descriptors, NamesOf, InFile;
    var dir := Directory(d, img, if delay then 13 else 1);
    RowsFit(dir.1, delay);
    if Span(img, dir.0, dir.1).Ok? { SpanInFile(d, img, dir.0, dir.1); }
    NamesInIff(d, img, dir.0, dir.1, delay, names);
  }

  lemma NamesInIff(d: bytes, img: Image, rva: nat, size: nat, delay: bool, names: seq<Import>)
    requires InFile(img, |d|)
    ensures IsNamesIn(d, img, rva, size, delay, names) <==>
            if rva == 0 then names == []
            else
              && size >= Extent(1, delay) && Span(img, rva, size).Ok?
              && Span(img, rva, size).value + Extent(Count(size, delay), delay) <= |d|
              && NamesOf(Descriptors(d, img, Span(img, rva, size).value, Count(size, delay), delay)) == Ok(names)
  {
    hide Span, Lists, NamesOf, Descriptors;
    RowsFit(size, delay);
    if rva != 0 && size >= Width(delay) && Span(img, rva, size).Ok? {
      var o := Span(img, rva, size).value;
      SpanInFile(d, img, rva, size);
      ListsIff(d, img, o, Count(size, delay), delay, names);
      if Lists(d, img, o, Count(size, delay), delay, names) { assert ListedAt(d, img, rva, size, delay, o, names); }
    }
  }

  lemma SpanInFile(d: bytes, img: Image, rva: nat, size: nat)
    requires InFile(img, |d|) && Span(img, rva, size).Ok?
    ensures Span(img, rva, size).value + size <= |d|
  {
    SpanIsLoadersView(d, img, rva, size);
  }

  lemma RowsFit(size: nat, delay: bool)
    ensures Extent(Count(size, delay), delay) <= size && Width(delay) * (size / Width(delay)) <= size
    ensures Count(size, delay) == size / Width(delay) && Extent(1, delay) == Width(delay)
  {}

  /** All imported names: those of directory 1, then those of directory 13. */
  lemma ImportsIff(d: bytes, img: Image, names: seq<Import>)
    requires InFile(img, |d|)
    ensures Imports(d, img) == Ok(names) <==>
            exists n: nat :: n <= |names| && IsNames(d, img, false, names[..n]) && IsNames(d, img, true, names[n..])
  {
    hide DirectoryNames, IsNames, InFile;
    var plain, delayed := DirectoryNames(d, img, false), DirectoryNames(d, img, true);
    if Imports(d, img) == Ok(names) {
      assert names == plain.value + delayed.value;
      var n := |plain.value|;
      assert names[..n] == plain.value && names[n..] == delayed.value;
      DirectoryNamesIff(d, img, false, names[..n]);
      DirectoryNamesIff(d, img, true, names[n..]);
    }
    if n: nat :| n <= |names| && IsNames(d, img, false, names[..n]) && IsNames(d, img, true, names[n..]) {
      DirectoryNamesIff(d, img, false, names[..n]);
      DirectoryNamesIff(d, img, true, names[n..]);
      assert names == names[..n] + names[n..];
    }
  }

  // ---- bits, load configuration, guard table, calls ----------------------

  /** GUARD_CF, HIGH_ENTROPY_VA, DYNAMIC_BASE and NX_COMPAT: bits 14, 5, 6 and 8. */
  ghost predicate IsHard(dllc: nat) {
    dllc % 0x8000 >= 0x4000 && dllc % 0x40 >= 0x20 && dllc % 0x80 >= 0x40 && dllc % 0x200 >= 0x100
  }

  lemma HardenedIff(dllc: nat)
    ensures Hardened(dllc) <==> IsHard(dllc)
  {
    BitIff(dllc, 0x4000);
    BitIff(dllc, 0x20);
    BitIff(dllc, 0x40);
    BitIff(dllc, 0x100);
    assert HARDENING[0] == 0x4000 && HARDENING[1] == 0x20 && HARDENING[2] == 0x40 && HARDENING[3] == 0x100;
  }

  lemma BitIff(x: nat, bit: nat)
    requires bit in {0x20, 0x40, 0x100, 0x400, 0x4000}
    ensures HasBit(x, bit) <==> x % (2 * bit) >= bit
  {}

  ghost predicate IsConfig(d: bytes, img: Image, lc: LoadConfig)
    requires InFile(img, |d|)
  {
    var (rva, size) := Directory(d, img, 10);
    rva != 0 && 148 <= size && exists o :: IsConfigAt(d, img, rva, size, o, lc)
  }

  ghost predicate IsConfigAt(d: bytes, img: Image, rva: nat, size: nat, o: nat, lc: LoadConfig) {
    && Span(img, rva, size) == Ok(o) && o + 148 <= |d|
    && 148 <= Le(d, o, 4) <= size
    && lc.disp == Le(d, o + 120, 8) && lc.tab == Le(d, o + 128, 8) && lc.cnt == Le(d, o + 136, 8)
    && lc.flags == Le(d, o + 144, 4) && lc.flags % 0x200 >= 0x100 && lc.flags % 0x800 >= 0x400
  }

  lemma ConfigIff(d: bytes, img: Image, lc: LoadConfig)
    requires InFile(img, |d|)
    ensures ReadLoadConfig(d, img) == Ok(lc) <==> IsConfig(d, img, lc)
  {
    hide Span, Directory, HasBit, InFile, U32, U64, Le;
    var (rva, size) := Directory(d, img, 10);
    if rva != 0 && size >= 148 && Span(img, rva, size).Ok? {
      var o := Span(img, rva, size).value;
      SpanInFile(d, img, rva, size);
      Reads32(d, o);
      Reads64(d, o + 120);
      Reads64(d, o + 128);
      Reads64(d, o + 136);
      Reads32(d, o + 144);
      BitIff(lc.flags, 0x100);
      BitIff(lc.flags, 0x400);
      if ReadLoadConfig(d, img) == Ok(lc) { assert IsConfigAt(d, img, rva, size, o, lc); }
    }
  }

  /** Row i of a table with rows `stride` bytes apart. */
  ghost function RowAt(d: bytes, to: nat, stride: nat, i: nat): nat
    requires to + stride * i + 4 <= |d|
  {
    Le(d, to + stride * i, 4)
  }

  /** The guard table: at least 100 rows and fewer than 2 to the 24, file-backed,
      four bytes and as many as the top four flag bits say each, every row above the
      one before and in the file-backed part of the first .text section. */
  ghost predicate IsTable(d: bytes, img: Image, lc: LoadConfig, text: Section) {
    && 100 <= lc.cnt < 0x100_0000 && img.base <= lc.tab
    && (exists i: nat :: FirstText(img.secs, i) && img.secs[i] == text)
    && exists to :: IsTableAt(d, img, lc, text, to)
  }

  /** Four bytes and as many more as the top four of the flag bits say. */
  ghost function RowBytes(lc: LoadConfig): nat { 4 + lc.flags / 0x1000_0000 }

  ghost predicate IsTableAt(d: bytes, img: Image, lc: LoadConfig, text: Section, to: nat) {
    var stride := RowBytes(lc);
    && img.base <= lc.tab && Span(img, lc.tab - img.base, lc.cnt * stride) == Ok(to) && to + lc.cnt * stride <= |d|
    && (forall i :: 0 <= i < lc.cnt ==> to + stride * i + 4 <= |d|)
    && (forall i :: 0 <= i < lc.cnt ==>
          text.va <= RowAt(d, to, stride, i) < text.va + FileBacked(text))
    && forall i :: 0 < i < lc.cnt ==> RowAt(d, to, stride, i - 1) < RowAt(d, to, stride, i)
  }

  lemma TableIff(d: bytes, img: Image, lc: LoadConfig, text: Section)
    requires InFile(img, |d|) && lc.flags < 0x1_0000_0000
    ensures GuardTable(d, img, lc) == Ok(text) <==> IsTable(d, img, lc, text)
  {
    hide Span, Named, FirstText, InFile, Entry, U32, Le, Stride;
    var stride := Stride(lc);
    StrideIs(lc);
    NamedIff(img.secs, text);
    if img.base <= lc.tab && Span(img, lc.tab - img.base, lc.cnt * stride).Ok? {
      var to := Span(img, lc.tab - img.base, lc.cnt * stride).value;
      SpanInFile(d, img, lc.tab - img.base, lc.cnt * stride);
      RowsIff(d, lc, text, to);
      if IsTable(d, img, lc, text) { var x :| IsTableAt(d, img, lc, text, x); }
      if GuardTable(d, img, lc) == Ok(text) { assert IsTableAt(d, img, lc, text, to); }
    }
  }

  lemma StrideIs(lc: LoadConfig)
    requires lc.flags < 0x1_0000_0000
    ensures Stride(lc) == RowBytes(lc)
  {}

  lemma RowsIff(d: bytes, lc: LoadConfig, text: Section, to: nat)
    requires TableAt(d, to, lc)
    ensures forall i :: 0 <= i < lc.cnt ==> to + Stride(lc) * i + 4 <= |d|
    ensures AllInText(d, to, lc, text, lc.cnt) <==>
            forall i :: 0 <= i < lc.cnt ==>
              text.va <= RowAt(d, to, Stride(lc), i) < text.va + FileBacked(text)
    ensures Sorted(d, to, lc, lc.cnt) <==>
            forall i :: 0 < i < lc.cnt ==> RowAt(d, to, Stride(lc), i - 1) < RowAt(d, to, Stride(lc), i)
  {
    hide U32, Le, Entry, Stride, RowAt;
    forall i | 0 <= i < lc.cnt
      ensures to + Stride(lc) * i + 4 <= |d| && Entry(d, to, lc, i) == RowAt(d, to, Stride(lc), i)
    {
      EntryIs(d, lc, to, i);
    }
  }

  lemma StrideIsFour(lc: LoadConfig)
    ensures Stride(lc) >= 4
  {}

  lemma EntryIs(d: bytes, lc: LoadConfig, to: nat, i: nat)
    requires TableAt(d, to, lc) && i < lc.cnt
    ensures to + Stride(lc) * i + 4 <= |d| && Entry(d, to, lc, i) == RowAt(d, to, Stride(lc), i)
  {
    StrideIsFour(lc);
    hide U32, Le, Stride;
    RowFits(i, lc.cnt, Stride(lc));
    assert i * Stride(lc) == Stride(lc) * i;
    Reads32(d, to + i * Stride(lc));
  }

  /** FF 15 or FF 25 and a signed displacement that leads from the end of the
      instruction to the target. */
  ghost predicate CallsTo(code: bytes, va: nat, target: nat, i: nat) {
    && i + 6 <= |code| && code[i] == 255 && (code[i + 1] == 21 || code[i + 1] == 37)
    && var rel := Le(code, i + 2, 4);
       (rel < 0x8000_0000 && va + i + 6 + rel == target) ||
       (rel >= 0x8000_0000 && va + i + 6 + rel == target + 0x1_0000_0000)
  }

  ghost function Sites(code: bytes, va: nat, target: nat): set<nat> {
    set i: nat | i < |code| && CallsTo(code, va, target, i)
  }

  lemma CallsIff(code: bytes, va: nat, target: nat)
    ensures CallSites(code, va, target) == Sites(code, va, target)
  {
    hide U32, Le;
    forall i: nat | i + 6 <= |code| ensures IsGuardedCall(code, va, target, i) <==> CallsTo(code, va, target, i) {
      Reads32(code, i + 2);
    }
  }

  // ---- the verdict -------------------------------------------------------

  /** What is reported of an accepted exe, and all that it takes to be accepted. */
  ghost predicate IsGood(
    d: bytes, minCalls: int, img: Image, names: seq<Import>, lc: LoadConfig, text: Section, r: Report)
    requires InFile(img, |d|)
  {
    && IsImported(d, img, names) && IsHard(img.dllc)
    && (forall n :: n in names ==> !IsRuntime(n.name)) && (exists n :: n in names && IsForwarder(n.name))
    && IsConfig(d, img, lc) && IsTable(d, img, lc, text)
    && IsCalled(d, minCalls, img, lc, text, r.calls)
    && r == Report(|names|, |ForwarderPlaces(names)|, img.dllc, lc.cnt, r.calls)
  }

  ghost predicate IsImported(d: bytes, img: Image, names: seq<Import>)
    requires InFile(img, |d|)
  {
    exists n: nat :: n <= |names| && IsNames(d, img, false, names[..n]) && IsNames(d, img, true, names[n..])
  }

  /** The dispatch pointer is there, eight file-backed bytes, and calls through it
      stand in the file-backed text at so many offsets, no fewer than asked. */
  ghost predicate IsCalled(d: bytes, minCalls: int, img: Image, lc: LoadConfig, text: Section, calls: nat) {
    && lc.disp > 0 && img.base <= lc.disp && (exists o :: Span(img, lc.disp - img.base, 8) == Ok(o))
    && text.raw + FileBacked(text) <= |d|
    && var code := d[text.raw..text.raw + FileBacked(text)];
       calls == |Sites(code, text.va, lc.disp - img.base)| && minCalls <= calls
  }

  lemma CalledIff(d: bytes, minCalls: int, img: Image, lc: LoadConfig, text: Section, imports: nat, ucrt: nat, r: Report)
    requires InFile(img, |d|) && text in img.secs
    ensures JudgeCalls(d, img, lc, text, imports, ucrt, minCalls) == Ok(r) <==>
            r == Report(imports, ucrt, img.dllc, lc.cnt, r.calls) && IsCalled(d, minCalls, img, lc, text, r.calls)
  {
    hide Span, CallSites, Sites;
    if lc.disp >= img.base { CallsIff(TextCode(d, text), text.va, lc.disp - img.base); }
  }

  lemma GuardIff(d: bytes, minCalls: int, img: Image, imports: nat, ucrt: nat, r: Report)
    requires InFile(img, |d|)
    ensures JudgeGuard(d, img, imports, ucrt, minCalls) == Ok(r) <==>
            exists lc, text ::
              && IsConfig(d, img, lc) && IsTable(d, img, lc, text) && IsCalled(d, minCalls, img, lc, text, r.calls)
              && r == Report(imports, ucrt, img.dllc, lc.cnt, r.calls)
  {
    hide ReadLoadConfig, IsConfig, GuardTable, IsTable, JudgeCalls, IsCalled, InFile;
    if JudgeGuard(d, img, imports, ucrt, minCalls) == Ok(r) {
      var lc := ReadLoadConfig(d, img).value;
      ConfigIff(d, img, lc);
      FlagsBelow(d, img, lc);
      var text := GuardTable(d, img, lc).value;
      TableIff(d, img, lc, text);
      CalledIff(d, minCalls, img, lc, text, imports, ucrt, r);
    }
    if lc, text :|
      && IsConfig(d, img, lc) && IsTable(d, img, lc, text) && IsCalled(d, minCalls, img, lc, text, r.calls)
      && r == Report(imports, ucrt, img.dllc, lc.cnt, r.calls)
    {
      ConfigIff(d, img, lc);
      FlagsBelow(d, img, lc);
      TableIff(d, img, lc, text);
      CalledIff(d, minCalls, img, lc, text, imports, ucrt, r);
    }
  }

  lemma FlagsBelow(d: bytes, img: Image, lc: LoadConfig)
    requires InFile(img, |d|) && IsConfig(d, img, lc)
    ensures lc.flags < 0x1_0000_0000
  {
    hide Le, Span, Directory, InFile;
    var (rva, size) := Directory(d, img, 10);
    var o: nat :| IsConfigAt(d, img, rva, size, o, lc);
    FourBytesBelow(d, o + 144);
  }

  lemma LinkageIff(names: seq<Import>, dllc: nat)
    ensures LinkageFault(names, dllc) == Some(ForbiddenRuntime) <==> exists n :: n in names && IsRuntime(n.name)
    ensures LinkageFault(names, dllc) == Some(NoUniversalCrt) <==>
            (forall n :: n in names ==> !IsRuntime(n.name)) && (forall n :: n in names ==> !IsForwarder(n.name))
    ensures LinkageFault(names, dllc) == Some(LacksHardening) <==>
            && (forall n :: n in names ==> !IsRuntime(n.name)) && (exists n :: n in names && IsForwarder(n.name))
            && !IsHard(dllc)
    ensures LinkageFault(names, dllc) == None <==>
            && (forall n :: n in names ==> !IsRuntime(n.name)) && (exists n :: n in names && IsForwarder(n.name))
            && IsHard(dllc)
  {
    hide IsVcRuntime, IsUcrt, IsRuntime, IsForwarder, Hardened, IsHard;
    HardenedIff(dllc);
    forall n | n in names
      ensures IsVcRuntime(n.name) <==> IsRuntime(n.name)
      ensures IsUcrt(n.name) <==> IsForwarder(n.name)
    {
      NamesIff(n.name);
    }
    if Forwarders(names) != [] { SomeForwarder(names); }
    if n :| n in names && IsUcrt(n.name) { ForwarderIsListed(names, n); }
  }

  lemma {:induction false} ForwarderIsListed(names: seq<Import>, n: Import)
    requires n in names && IsUcrt(n.name)
    ensures Forwarders(names) != []
  {
    hide IsUcrt;
    if names[0] != n { ForwarderIsListed(names[1..], n); }
  }

  /** A file gets a report exactly when it is laid out as an image that meets every
      demand, and the report is that image's. */
  lemma VerdictIff(d: bytes, minCalls: int, r: Report)
    ensures Verdict(d, minCalls) == Ok(r) <==>
            exists img, names, lc, text ::
              (exists pe, optsz :: IsLayout(d, pe, optsz, img)) && InFile(img, |d|) &&
              IsGood(d, minCalls, img, names, lc, text, r)
  {
    hide Parse, IsLayout, Imports, IsImported, JudgeGuard, IsConfig, IsTable, IsCalled, LinkageFault, InFile,
         IsHard, IsRuntime, IsForwarder, Forwarders, ForwarderPlaces;
    if Verdict(d, minCalls) == Ok(r) {
      var img := Parse(d).value;
      ParseIff(d, img);
      ParsedIsInFile(d);
      var names := Imports(d, img).value;
      ImportedIff(d, img, names);
      LinkageIff(names, img.dllc);
      ForwardersCount(names);
      GuardIff(d, minCalls, img, |names|, |Forwarders(names)|, r);
      var lc, text :|
        && IsConfig(d, img, lc) && IsTable(d, img, lc, text) && IsCalled(d, minCalls, img, lc, text, r.calls)
        && r == Report(|names|, |Forwarders(names)|, img.dllc, lc.cnt, r.calls);
      assert IsGood(d, minCalls, img, names, lc, text, r);
    }
    if img, names, lc, text :|
      (exists pe, optsz :: IsLayout(d, pe, optsz, img)) && InFile(img, |d|) &&
      IsGood(d, minCalls, img, names, lc, text, r)
    {
      ParseIff(d, img);
      ParsedIsInFile(d);
      ImportedIff(d, img, names);
      LinkageIff(names, img.dllc);
      ForwardersCount(names);
      GuardIff(d, minCalls, img, |names|, |Forwarders(names)|, r);
    }
  }

  lemma ImportedIff(d: bytes, img: Image, names: seq<Import>)
    requires InFile(img, |d|)
    ensures Imports(d, img) == Ok(names) <==> IsImported(d, img, names)
  {
    ImportsIff(d, img, names);
  }

  /** An image that can be read and imports a name of the runtime, in whatever case,
      is refused for it. */
  lemma RuntimeIsForbidden(d: bytes, minCalls: int, img: Image, names: seq<Import>, n: Import)
    requires Parse(d) == Ok(img) && InFile(img, |d|) && IsImported(d, img, names)
    requires n in names && IsRuntime(n.name)
    ensures Verdict(d, minCalls) == Bad(ForbiddenRuntime)
  {
    hide Imports, IsImported, JudgeGuard, LinkageFault, InFile, IsRuntime, Parse;
    ImportedIff(d, img, names);
    LinkageIff(names, img.dllc);
    ParsedIsInFile(d);
  }

  // ---- faults ------------------------------------------------------------

  ghost predicate HasMagic(d: bytes) { 64 <= |d| && d[0] == 77 && d[1] == 90 }

  ghost predicate HasSignature(d: bytes) {
    HasMagic(d) &&
    var pe := Le(d, 60, 4);
    pe + 24 <= |d| && d[pe] == 80 && d[pe + 1] == 69 && d[pe + 2] == 0 && d[pe + 3] == 0
  }

  ghost predicate HasOptional(d: bytes) {
    HasSignature(d) &&
    var pe := Le(d, 60, 4);
    112 <= Le(d, pe + 20, 2) && pe + 24 + Le(d, pe + 20, 2) <= |d|
  }

  ghost predicate IsPlus(d: bytes) { HasOptional(d) && Le(d, Le(d, 60, 4) + 24, 2) == 523 }

  ghost predicate HasDirectories(d: bytes) {
    IsPlus(d) && 112 + 8 * Le(d, Le(d, 60, 4) + 132, 4) <= Le(d, Le(d, 60, 4) + 20, 2)
  }

  /** Which fault a refused file has: the first demand on the headers it does not
      meet. Past those it is one of the section table. */
  lemma HeaderFaults(d: bytes)
    ensures Parse(d) == Bad(NotPe) <==> !HasMagic(d)
    ensures Parse(d) == Bad(BadSignature) <==> HasMagic(d) && !HasSignature(d)
    ensures Parse(d) == Bad(OptionalHeaderTruncated) <==> HasSignature(d) && !HasOptional(d)
    ensures Parse(d) == Bad(NotPe32Plus) <==> HasOptional(d) && !IsPlus(d)
    ensures Parse(d) == Bad(TooManyDirectories) <==> IsPlus(d) && !HasDirectories(d)
    ensures HasDirectories(d) && Parse(d).Bad? ==> Parse(d).fault in {SectionTableTruncated, RawDataPastEnd}
  {
    hide U16, U32, U64, Le, ReadSections;
    if |d| >= 64 {
      Reads32(d, 60);
      var pe := U32(d, 60);
      SignaturesMean(d, pe);
      if pe + 24 <= |d| {
        Reads16(d, pe + 6);
        Reads16(d, pe + 20);
        var opt, optsz := pe + 24, U16(d, pe + 20);
        if 112 <= optsz && opt + optsz <= |d| {
          Reads16(d, opt);
          Reads32(d, opt + 108);
          SectionFaults(d, opt + optsz, Le(d, pe + 6, 2));
        }
      }
    }
  }

  /** The fault of a section table is that of its first header in the wrong: it ends
      past the file, or its raw data does. */
  lemma {:induction false} SectionFaults(d: bytes, at: nat, n: nat)
    ensures ReadSections(d, at, n).Bad? ==>
              exists i :: 0 <= i < n && IsFirstFault(d, at, i, ReadSections(d, at, n).fault)
    ensures ReadSections(d, at, n).Bad? ==> ReadSections(d, at, n).fault in {SectionTableTruncated, RawDataPastEnd}
  {
    hide U32, Le, TrimNuls, IsFirstFault;
    if n > 0 {
      SectionFaults(d, at, n - 1);
      if ReadSections(d, at, n - 1).Ok? && ReadSections(d, at, n).Bad? { LastIsFault(d, at, n); }
    }
  }

  ghost predicate IsFirstFault(d: bytes, at: nat, i: nat, f: Fault) {
    && (forall k :: 0 <= k < i ==> SectionReads(d, at, k))
    && (f == SectionTableTruncated ==> at + 40 * i + 40 > |d|)
    && (f == RawDataPastEnd ==>
          at + 40 * i + 40 <= |d| && Le(d, at + 40 * i + 20, 4) + Le(d, at + 40 * i + 16, 4) > |d|)
  }

  ghost predicate SectionReads(d: bytes, at: nat, k: nat) { exists sec :: IsRow(d, at, k, sec) }

  ghost predicate IsRow(d: bytes, at: nat, k: nat, sec: Section) { IsSection(d, at + 40 * k, sec) }

  lemma LastIsFault(d: bytes, at: nat, n: nat)
    requires n > 0 && ReadSections(d, at, n - 1).Ok? && ReadSections(d, at, n).Bad?
    ensures IsFirstFault(d, at, n - 1, ReadSections(d, at, n).fault)
  {
    hide U32, Le, TrimNuls, IsSection;
    var secs := ReadSections(d, at, n - 1).value;
    SectionsIff(d, at, n - 1, secs);
    forall k | 0 <= k < n - 1 ensures SectionReads(d, at, k) { assert IsRow(d, at, k, secs[k]); }
    var o := at + 40 * (n - 1);
    if o + 40 <= |d| {
      Reads32(d, o + 16);
      Reads32(d, o + 20);
    }
  }

  /** A span that is not granted is empty, outside every section, or past the part of
      its section that the file backs. */
  lemma SpanFaults(img: Image, rva: nat, size: nat)
    ensures Span(img, rva, size) == Bad(EmptySpan) <==> size == 0
    ensures Span(img, rva, size) == Bad(OutsideSections) <==>
            size > 0 && forall i :: 0 <= i < |img.secs| ==> !(img.secs[i].va <= rva < img.secs[i].va + img.secs[i].vsz)
    ensures Span(img, rva, size) == Bad(PastFileBacked) <==>
            size > 0 && exists s :: IsHome(img.secs, rva, s) && s.va + FileBacked(s) < rva + size
    ensures Span(img, rva, size).Ok? || Span(img, rva, size).fault in {EmptySpan, OutsideSections, PastFileBacked}
  {
    hide Home, IsHome;
    if Home(img.secs, rva).Some? { HomeIff(img.secs, rva, Home(img.secs, rva).value); }
    if s :| IsHome(img.secs, rva, s) && s.va + FileBacked(s) < rva + size { HomeIff(img.secs, rva, s); }
  }

  /** Why a load configuration is refused, in order. */
  lemma ConfigFaults(d: bytes, img: Image)
    requires InFile(img, |d|)
    ensures var (rva, size) := Directory(d, img, 10); var r := ReadLoadConfig(d, img);
            && (r == Bad(LoadConfigMissing) <==> rva == 0 || size < 148)
            && (rva != 0 && size >= 148 && Span(img, rva, size).Bad? ==> r == Bad(Span(img, rva, size).fault))
            && (rva != 0 && size >= 148 && Span(img, rva, size).Ok? ==>
                  var o := Span(img, rva, size).value;
                  && o + 148 <= |d|
                  && (r == Bad(LoadConfigSize) <==> !(148 <= Le(d, o, 4) <= size))
                  && (r == Bad(GuardFlagsMissing) <==>
                        148 <= Le(d, o, 4) <= size &&
                        (Le(d, o + 144, 4) % 0x200 < 0x100 || Le(d, o + 144, 4) % 0x800 < 0x400)))
  {
    hide Directory, HasBit, InFile, U32, U64, Le, Home;
    var (rva, size) := Directory(d, img, 10);
    if rva != 0 && size >= 148 && Span(img, rva, size).Ok? {
      var o := Span(img, rva, size).value;
      SpanInFile(d, img, rva, size);
      Reads32(d, o);
      Reads32(d, o + 144);
      BitIff(U32(d, o + 144), 0x100);
      BitIff(U32(d, o + 144), 0x400);
    }
  }

  /** Why a guard table is refused, in order. */
  lemma TableFaults(d: bytes, img: Image, lc: LoadConfig)
    requires InFile(img, |d|) && lc.flags < 0x1_0000_0000
    ensures var r := GuardTable(d, img, lc);
            && (r == Bad(TooFewEntries) <==> lc.cnt < 100)
            && (r == Bad(CountNotCredible) <==> lc.cnt >= 0x100_0000)
            && (r == Bad(TableBelowBase) <==> 100 <= lc.cnt < 0x100_0000 && lc.tab < img.base)
    ensures 100 <= lc.cnt < 0x100_0000 && img.base <= lc.tab ==>
              var r := GuardTable(d, img, lc); var span := Span(img, lc.tab - img.base, lc.cnt * RowBytes(lc));
              && (span.Bad? ==> r == Bad(span.fault))
              && (span.Ok? ==>
                    && span.value + lc.cnt * RowBytes(lc) <= |d|
                    && (r == Bad(NoSuchSection) <==> forall s :: s in img.secs ==> s.name != [46, 116, 101, 120, 116])
                    && (r == Bad(TableUnsorted) <==>
                          && (exists s :: s in img.secs && s.name == [46, 116, 101, 120, 116])
                          && !Ascends(d, span.value, lc)))
  {
    hide Home, Entry, U32, Le, Stride, RowAt, InFile;
    StrideIs(lc);
    if 100 <= lc.cnt < 0x100_0000 && img.base <= lc.tab {
      var span := Span(img, lc.tab - img.base, lc.cnt * RowBytes(lc));
      if span.Ok? {
        SpanInFile(d, img, lc.tab - img.base, lc.cnt * RowBytes(lc));
        RowsIff(d, lc, Section([], 0, 0, 0, 0), span.value);
        var text := Named(img.secs, DOT_TEXT);
        if text.Bad? {
          forall s | s in img.secs ensures s.name != DOT_TEXT {
            var i :| 0 <= i < |img.secs| && img.secs[i] == s;
          }
        }
      }
    }
  }

  ghost predicate Ascends(d: bytes, to: nat, lc: LoadConfig) {
    forall i :: 0 < i < lc.cnt && to + RowBytes(lc) * i + 4 <= |d| && to + RowBytes(lc) * (i - 1) + 4 <= |d| ==>
      RowAt(d, to, RowBytes(lc), i - 1) < RowAt(d, to, RowBytes(lc), i)
  }
}
