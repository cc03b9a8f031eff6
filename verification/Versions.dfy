/** Four-field engine versions: their decimal text, its parser, and their order. */
module Versions {
  import opened Basics

  /** `version[0]` .. `version[3]` of the monitor's tuples. */
  datatype Version = Version(major: nat, minor: nat, build: nat, patch: nat)

  const U32_MAX: nat := 0xFFFF_FFFF
  const MAX_TEXT: nat := 32

  // ---- order -------------------------------------------------------------

  /** Python's order on tuples of equal length. */
  predicate Less(a: Version, b: Version) {
    if a.major != b.major then a.major < b.major
    else if a.minor != b.minor then a.minor < b.minor
    else if a.build != b.build then a.build < b.build
    else a.patch < b.patch
  }

  predicate AtMost(a: Version, b: Version) { !Less(b, a) }

  function Max(a: Version, b: Version): Version { if Less(a, b) then b else a }

  /** A version as one number, its fields the digits in base 2 to the 32. */
  ghost function Weight(v: Version): nat {
    v.patch + 0x1_0000_0000 * v.build + 0x1_0000_0000_0000_0000 * v.minor +
    0x1_0000_0000_0000_0000_0000_0000 * v.major
  }

  /** On fields that fit u32 the order is that of the numbers. */
  lemma LessIffLighter(a: Version, b: Version)
    requires a.minor < 0x1_0000_0000 && a.build < 0x1_0000_0000 && a.patch < 0x1_0000_0000
    requires b.minor < 0x1_0000_0000 && b.build < 0x1_0000_0000 && b.patch < 0x1_0000_0000
    ensures Less(a, b) <==> Weight(a) < Weight(b)
    ensures Weight(Max(a, b)) == if Weight(a) < Weight(b) then Weight(b) else Weight(a)
  {}

  // ---- decimal text ------------------------------------------------------

  predicate IsDigit(c: char) { '0' <= c <= '9' }

  predicate AllDigits(s: string) { forall i :: 0 <= i < |s| ==> IsDigit(s[i]) }

  /** `p.isdigit() and p.isascii()`. */
  predicate IsNumeral(s: string) { s != "" && AllDigits(s) }

  /** `int(p)` on a numeral. */
  function Value(s: string): nat
    requires AllDigits(s)
  {
    if s == "" then 0
    else 10 * Value(s[..|s| - 1]) + (s[|s| - 1] as nat - '0' as nat)
  }

  /** `str(x)` on a non-negative integer. */
  function Decimal(n: nat): (s: string)
    ensures IsNumeral(s)
  {
    var last := ['0' + (n % 10) as char];
    if n < 10 then last else Decimal(n / 10) + last
  }

  lemma {:induction false} DecimalValue(n: nat)
    ensures Value(Decimal(n)) == n
  {
    if n >= 10 {
      DecimalValue(n / 10);
      var s := Decimal(n);
      assert s[..|s| - 1] == Decimal(n / 10);
    }
  }

  /** Canonical decimals are never longer than the text they came from. */
  lemma {:induction false} CanonicalNotLonger(p: string)
    requires IsNumeral(p)
    ensures |Decimal(Value(p))| <= |p|
  {
    if Value(p) >= 10 {
      var q := p[..|p| - 1];
      assert Value(p) / 10 == Value(q);
      CanonicalNotLonger(q);
    }
  }

  // ---- dotted text -------------------------------------------------------

  /** `text.split(sep)` for a one-character separator. */
  function Split(s: string, sep: char): (parts: seq<string>)
    ensures |parts| >= 1
  {
    if s == "" then [""]
    else
      var rest := Split(s[1..], sep);
      if s[0] == sep then [""] + rest else [[s[0]] + rest[0]] + rest[1..]
  }

  /** `sep.join(parts)`. */
  function Join(parts: seq<string>, sep: char): string
    requires |parts| >= 1
  {
    if |parts| == 1 then parts[0] else parts[0] + [sep] + Join(parts[1..], sep)
  }

  /** One more character in front of the first part is one in front of the text. */
  lemma JoinOneMore(c: char, parts: seq<string>, sep: char)
    requires |parts| >= 1
    ensures Join([[c] + parts[0]] + parts[1..], sep) == [c] + Join(parts, sep)
    ensures Join([""] + parts, sep) == [sep] + Join(parts, sep)
  {
    var more := [[c] + parts[0]] + parts[1..];
    assert more[1..] == parts[1..];
    if |parts| > 1 { assert [c] + parts[0] + [sep] + Join(parts[1..], sep) == [c] + Join(parts, sep); }
    assert ([""] + parts)[1..] == parts;
  }

  lemma {:induction false} JoinOfSplit(s: string, sep: char)
    ensures Join(Split(s, sep), sep) == s
  {
    if s != "" {
      JoinOfSplit(s[1..], sep);
      JoinOneMore(s[0], Split(s[1..], sep), sep);
    }
  }

  lemma {:induction false} SplitFirst(a: string, sep: char, b: string)
    requires sep !in a
    ensures Split(a + [sep] + b, sep) == [a] + Split(b, sep)
  {
    var s := a + [sep] + b;
    if a == "" {
      assert s[1..] == b;
    } else {
      SplitFirst(a[1..], sep, b);
      assert s[1..] == a[1..] + [sep] + b;
      assert a == [a[0]] + a[1..];
    }
  }

  lemma {:induction false} SplitWhole(a: string, sep: char)
    requires sep !in a
    ensures Split(a, sep) == [a]
  {
    if a != "" {
      SplitWhole(a[1..], sep);
      assert a == [a[0]] + a[1..];
    }
  }

  /** One more character in front of a split text. */
  function Prefixed(c: char, parts: seq<string>, sep: char): seq<string>
    requires parts != []
  {
    if c == sep then [""] + parts else [[c] + parts[0]] + parts[1..]
  }

  lemma PrefixedConcat(c: char, x: seq<string>, y: seq<string>, sep: char)
    requires x != []
    ensures Prefixed(c, x + y, sep) == Prefixed(c, x, sep) + y
  {
    assert (x + y)[1..] == x[1..] + y;
  }

  lemma {:induction false} SplitOfConcat(a: string, sep: char, b: string)
    ensures Split(a + [sep] + b, sep) == Split(a, sep) + Split(b, sep)
  {
    var s := a + [sep] + b;
    if a == "" {
      assert s[1..] == b;
    } else {
      SplitOfConcat(a[1..], sep, b);
      assert s[1..] == a[1..] + [sep] + b;
      PrefixedConcat(a[0], Split(a[1..], sep), Split(b, sep), sep);
      assert Split(s, sep) == Prefixed(s[0], Split(s[1..], sep), sep);
    }
  }

  // ---- parse4 and join4 --------------------------------------------------

  /** Exactly four decimal fields that fit u32 in at most 32 characters, or None. */
  function Parse4(text: string): (v: Option<Version>)
  {
    if |text| > MAX_TEXT then None
    else
      var parts := Split(text, '.');
      if |parts| != 4 || exists i :: 0 <= i < 4 && !IsNumeral(parts[i]) then None
      else
        var v := Version(Value(parts[0]), Value(parts[1]), Value(parts[2]), Value(parts[3]));
        if FitsU32(v) then Some(v) else None
  }

  predicate FitsU32(v: Version) {
    v.major <= U32_MAX && v.minor <= U32_MAX && v.build <= U32_MAX && v.patch <= U32_MAX
  }

  function Fields(v: Version): seq<string> {
    [Decimal(v.major), Decimal(v.minor), Decimal(v.build), Decimal(v.patch)]
  }

  function Join4(v: Version): string { Join(Fields(v), '.') }

  lemma Join4Length(v: Version)
    ensures |Join4(v)| ==
            |Decimal(v.major)| + |Decimal(v.minor)| + |Decimal(v.build)| + |Decimal(v.patch)| + 3
  {
    JoinOfFour(Fields(v));
  }

  lemma JoinOfFour(f: seq<string>)
    requires |f| == 4
    ensures Join(f, '.') == f[0] + ['.'] + (f[1] + ['.'] + (f[2] + ['.'] + f[3]))
  {
    assert f[1..][1..] == f[2..];
    assert f[2..][1..] == f[3..];
    assert Join(f[3..], '.') == f[3];
    assert Join(f[2..], '.') == f[2] + ['.'] + Join(f[3..], '.');
    assert Join(f[1..], '.') == f[1] + ['.'] + Join(f[2..], '.');
  }

  lemma DigitsHaveNoDot(s: string)
    requires AllDigits(s)
    ensures '.' !in s
  {}

  lemma SplitOfJoin4(v: Version)
    ensures Split(Join4(v), '.') == Fields(v)
  {
    var f := Fields(v);
    JoinOfFour(f);
    forall i | 0 <= i < 4 ensures '.' !in f[i] { DigitsHaveNoDot(f[i]); }
    SplitFirst(f[0], '.', f[1] + ['.'] + (f[2] + ['.'] + f[3]));
    SplitFirst(f[1], '.', f[2] + ['.'] + f[3]);
    SplitFirst(f[2], '.', f[3]);
    SplitWhole(f[3], '.');
  }

  /** A quadruple survives being written out and read back exactly when each
      field fits u32 and its canonical text is within the length limit. */
  lemma PersistsIff(v: Version)
    ensures Parse4(Join4(v)) == Some(v) <==> FitsU32(v) && |Join4(v)| <= MAX_TEXT
  {
    SplitOfJoin4(v);
    DecimalValue(v.major);
    DecimalValue(v.minor);
    DecimalValue(v.build);
    DecimalValue(v.patch);
  }

  /** Whatever `parse4` accepts survives persistence. */
  lemma ParsedSurvivesPersistence(s: string)
    requires Parse4(s).Some?
    ensures Parse4(Join4(Parse4(s).value)) == Parse4(s)
  {
    var parts := Split(s, '.');
    var v := Parse4(s).value;
    JoinOfSplit(s, '.');
    JoinOfFour(parts);
    Join4Length(v);
    CanonicalNotLonger(parts[0]);
    CanonicalNotLonger(parts[1]);
    CanonicalNotLonger(parts[2]);
    CanonicalNotLonger(parts[3]);
    PersistsIff(v);
  }

  /** The largest u32 quadruple is 43 characters long and is not read back. */
  lemma LargestQuadrupleIsLost()
    ensures var v := Version(U32_MAX, U32_MAX, U32_MAX, U32_MAX);
            |Join4(v)| == 43 && Parse4(Join4(v)) == None
  {
    var v := Version(U32_MAX, U32_MAX, U32_MAX, U32_MAX);
    Join4Length(v);
    TenDigits();
  }

  lemma TenDigits()
    ensures |Decimal(U32_MAX)| == 10
  {
    assert |Decimal(429496)| == 6 by { assert |Decimal(429)| == 3; }
    assert |Decimal(429496729)| == 9;
  }

  /** `parse4` accepts exactly the texts of at most 32 characters that are four
      numerals joined by dots, each below 2 to the 32, and reads them in order. */
  lemma Parse4Iff(text: string, v: Version)
    ensures Parse4(text) == Some(v) <==>
            && |text| <= 32 && v.major < 0x1_0000_0000 && v.minor < 0x1_0000_0000
            && v.build < 0x1_0000_0000 && v.patch < 0x1_0000_0000
            && exists a, b, c, d :: IsFour(text, v, a, b, c, d)
  {
    if Parse4(text) == Some(v) {
      var p := Split(text, '.');
      JoinOfSplit(text, '.');
      JoinOfFour(p);
      assert IsFour(text, v, p[0], p[1], p[2], p[3]);
    }
    if a, b, c, d :| IsFour(text, v, a, b, c, d) { FourAreSplit(text, v, a, b, c, d); }
  }

  ghost predicate IsFour(text: string, v: Version, a: string, b: string, c: string, d: string) {
    && text == a + "." + b + "." + c + "." + d
    && IsNumeral(a) && IsNumeral(b) && IsNumeral(c) && IsNumeral(d)
    && Value(a) == v.major && Value(b) == v.minor && Value(c) == v.build && Value(d) == v.patch
  }

  lemma FourAreSplit(text: string, v: Version, a: string, b: string, c: string, d: string)
    requires IsFour(text, v, a, b, c, d)
    ensures Split(text, '.') == [a, b, c, d]
  {
    assert text == a + ['.'] + (b + ['.'] + (c + ['.'] + d));
    SplitFirst(a, '.', b + ['.'] + (c + ['.'] + d));
    SplitFirst(b, '.', c + ['.'] + d);
    SplitFirst(c, '.', d);
    SplitWhole(d, '.');
  }

  /** The numeral read: its last digit counts one, the one before ten, and so on. */
  lemma {:induction false} DigitWeighs(s: string, i: nat)
    requires IsNumeral(s) && i < |s|
    ensures 10 * Value(s[..i]) + (s[i] as int - 48) == Value(s[..i + 1]) && 48 <= s[i] as int <= 57
    ensures i == |s| - 1 ==> s[..i + 1] == s
    ensures i == 0 ==> Value(s[..i]) == 0
  {
    assert s[..i + 1][..i] == s[..i];
  }

  /** The texts the page parser hands on: a version some accepted text denotes. */
  predicate Readable(v: Version) { Parse4(Join4(v)) == Some(v) }

  lemma OrderIsTotal(a: Version, b: Version, c: Version)
    ensures Less(a, b) || a == b || Less(b, a)
    ensures !(Less(a, b) && Less(b, a))
    ensures AtMost(a, b) && AtMost(b, c) ==> AtMost(a, c)
    ensures AtMost(a, Max(a, b)) && AtMost(b, Max(a, b)) && Max(a, b) in {a, b}
  {}
}
