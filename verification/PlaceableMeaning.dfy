/** What the pseudo-locale makes of a value, spelt out: letters are accented one by
    one, placeables copied, and the letters after the last placeable padded. */
module PlaceableMeaning {
  import opened Basics
  import opened PseudoLocale

  /** A character outside placeables, or a placeable with what is in its braces. */
  datatype Bit = Letter(c: char) | Placeable(body: string)

  ghost function Text(b: Bit): string { if b.Letter? then [b.c] else "{" + b.body + "}" }

  /** Opening braces less closing ones. */
  ghost function Level(s: string): int {
    if s == "" then 0
    else Level(s[..|s| - 1]) + (if s[|s| - 1] == '{' then 1 else if s[|s| - 1] == '}' then -1 else 0)
  }

  /** No brace in it closes one outside. */
  ghost predicate StaysIn(body: string) { forall k :: 0 <= k <= |body| ==> Level(body[..k]) >= 0 }

  ghost predicate Legal(b: Bit) {
    if b.Letter? then b.c != '{' else StaysIn(b.body) && Level(b.body) == 0
  }

  ghost predicate AllLegal(bs: seq<Bit>) { forall i :: 0 <= i < |bs| ==> Legal(bs[i]) }

  ghost function TextOf(bs: seq<Bit>): string {
    if bs == [] then "" else TextOf(bs[..|bs| - 1]) + Text(bs[|bs| - 1])
  }

  // ---- what is written ---------------------------------------------------

  const CAPITALS := "\U{C5}\U{181}\U{C7}\U{D0}\U{C9}\U{191}\U{11C}\U{124}\U{CE}\U{134}\U{136}\U{13F}\U{1E3E}" +
                    "\U{D1}\U{D6}\U{DE}\U{24A}\U{154}\U{160}\U{162}\U{DB}\U{1E7C}\U{174}\U{1E8A}\U{DD}\U{17D}"
  const SMALLS := "\U{E5}\U{180}\U{E7}\U{F0}\U{E9}\U{192}\U{11D}\U{125}\U{EE}\U{135}\U{137}\U{140}\U{1E3F}" +
                  "\U{F1}\U{F6}\U{FE}\U{24B}\U{155}\U{161}\U{163}\U{FB}\U{1E7D}\U{175}\U{1E8B}\U{FD}\U{17E}"

  lemma CapitalsAre(i: nat)
    requires i < 26
    ensures |CAPITALS| == 26 && CAPITALS[i] == UpperAccent(i)
  {}

  lemma SmallsAre(i: nat)
    requires i < 26
    ensures |SMALLS| == 26 && SMALLS[i] == LowerAccent(i)
  {}

  /** t is c with its accent: the letter's place in the alphabet is its place in the
      string of accented capitals or small letters. */
  ghost predicate IsAccented(c: char, t: char) {
    && (65 <= c as int <= 90 ==> |CAPITALS| == 26 && t == CAPITALS[c as int - 65])
    && (97 <= c as int <= 122 ==> |SMALLS| == 26 && t == SMALLS[c as int - 97])
    && (c as int < 65 || 90 < c as int < 97 || 122 < c as int ==> t == c)
  }

  lemma AccentIff(c: char, t: char)
    ensures IsAccented(c, t) <==> t == Accent(c)
  {
    hide CAPITALS, SMALLS, UpperAccent, LowerAccent;
    if 'A' <= c <= 'Z' { CapitalsAre(c as nat - 65); }
    if 'a' <= c <= 'z' { SmallsAre(c as nat - 97); }
  }

  ghost predicate IsWritten(b: Bit, t: string) {
    match b
    case Letter(c) => |t| == 1 && IsAccented(c, t[0])
    case Placeable(_) => t == Text(b)
  }

  /** t is what is written for the bits, one after the other, without padding. */
  ghost predicate Written(bs: seq<Bit>, t: string) {
    if bs == [] then t == ""
    else
      var n := |TextOf(bs[..|bs| - 1])|;
      n <= |t| && Written(bs[..|bs| - 1], t[..n]) && IsWritten(bs[|bs| - 1], t[n..])
  }

  /** The letters after the last placeable. */
  ghost function Tail(bs: seq<Bit>): string {
    if bs == [] || bs[|bs| - 1].Placeable? then "" else Tail(bs[..|bs| - 1]) + [bs[|bs| - 1].c]
  }

  /** Whole markers, five characters each, at least two fifths of the letters they pad
      and no more than it takes; none after a tail of blanks. */
  ghost predicate IsPadding(tail: string, p: string) {
    if forall i :: 0 <= i < |tail| ==> IsSpace(tail[i]) then p == ""
    else
      exists n :: IsMarkers(p, n) && IsEnough(|tail|, n)
  }

  /** n markers: a blank, a dot, two accented capitals and a dot each. */
  ghost predicate IsMarkers(p: string, n: nat) {
    |p| == 5 * n && forall i :: 0 <= i < n ==> IsMarker(p, i)
  }

  ghost predicate IsMarker(p: string, i: nat) {
    && 5 * i + 5 <= |p|
    && p[5 * i] == ' ' && p[5 * i + 1] == '\U{B7}' && p[5 * i + 2] == '\U{1E8A}'
    && p[5 * i + 3] == '\U{C5}' && p[5 * i + 4] == '\U{B7}'
  }

  /** One marker at least, two fifths of the length in whole characters at least, and
      one marker fewer would not do. */
  ghost predicate IsEnough(length: nat, n: nat) {
    n >= 1 && 2 * length < 5 * (5 * n + 1) && (n > 1 ==> 5 * (5 * (n - 1) + 1) <= 2 * length)
  }

  lemma SpaceIff(c: char)
    ensures IsSpace(c) <==>
            c as int in {9, 10, 11, 12, 13, 28, 29, 30, 31, 32, 133, 160, 5760, 8192, 8193, 8194, 8195, 8196, 8197,
                         8198, 8199, 8200, 8201, 8202, 8232, 8233, 8239, 8287, 12288}
  {}

  lemma {:induction false} RepeatAt(n: nat, i: nat)
    requires i < n
    ensures IsMarker(Repeat(n), i)
  {
    if i > 0 {
      RepeatAt(n - 1, i - 1);
      assert forall k :: 5 <= k < 5 * n ==> Repeat(n)[k] == Repeat(n - 1)[k - 5];
    }
  }

  lemma PaddingMeans(tail: string)
    ensures IsPadding(tail, Padding(tail))
  {
    hide Repeat, IsSpace, IsMarker;
    if !IsBlank(tail) {
      var n := Reps(|tail|);
      forall i | 0 <= i < n ensures IsMarker(Repeat(n), i) { RepeatAt(n, i); }
      assert IsMarkers(Repeat(n), n);
      RepsMean(|tail|);
    }
  }

  lemma RepsMean(length: nat)
    ensures IsEnough(length, Reps(length))
  {}

  // ---- depth -------------------------------------------------------------

  lemma {:induction false} SamePrefix(v: string, w: string, n: nat)
    requires n <= |v| && n <= |w| && v[..n] == w[..n]
    ensures Depth(v, n) == Depth(w, n)
  {
    if n > 0 {
      assert v[..n - 1] == v[..n][..n - 1] && w[..n - 1] == w[..n][..n - 1];
      SamePrefix(v, w, n - 1);
      assert v[n - 1] == v[..n][n - 1] && w[n - 1] == w[..n][n - 1];
    }
  }

  lemma {:induction false} SameCore(f: char -> char, v: string, w: string, n: nat)
    requires n <= |v| && n <= |w| && v[..n] == w[..n]
    ensures Core(f, v, n) == Core(f, w, n)
  {
    if n > 0 {
      assert v[..n - 1] == v[..n][..n - 1] && w[..n - 1] == w[..n][..n - 1];
      SameCore(f, v, w, n - 1);
      SamePrefix(v, w, n - 1);
      assert v[n - 1] == v[..n][n - 1] && w[n - 1] == w[..n][n - 1];
    }
  }

  lemma {:induction false} SameStart(v: string, w: string, n: nat)
    requires n <= |v| && n <= |w| && v[..n] == w[..n]
    ensures LiteralStart(v, n) == LiteralStart(w, n)
  {
    if n > 0 {
      assert v[..n - 1] == v[..n][..n - 1] && w[..n - 1] == w[..n][..n - 1];
      SameStart(v, w, n - 1);
      SamePrefix(v, w, n - 1);
      assert v[n - 1] == v[..n][n - 1] && w[n - 1] == w[..n][n - 1];
    }
  }

  /** In the braces of a placeable that starts at depth zero. */
  lemma {:induction false} DepthInside(v: string, n: nat, body: string, k: nat)
    requires n + 1 + |body| <= |v| && Depth(v, n) == 0 && v[n] == '{' && v[n + 1..n + 1 + |body|] == body
    requires StaysIn(body) && k <= |body|
    ensures Depth(v, n + 1 + k) == 1 + Level(body[..k])
  {
    if k > 0 {
      DepthInside(v, n, body, k - 1);
      assert body[..k][..k - 1] == body[..k - 1];
      assert v[n + k] == body[k - 1];
      assert Level(body[..k]) >= 0 && Level(body[..k - 1]) >= 0;
    }
  }

  // ---- the bits of a value -----------------------------------------------

  /** What the model has made of the text up to n, when it is these bits. */
  ghost predicate Fits(v: string, bs: seq<Bit>, n: nat) {
    && n <= |v| && v[..n] == TextOf(bs) && Depth(v, n) == 0
    && Written(bs, Core(Accent, v, n)) && LiteralStart(v, n) == n - |Tail(bs)| && |Tail(bs)| <= n
    && v[n - |Tail(bs)|..n] == Tail(bs)
  }

  lemma TextOneMore(bs: seq<Bit>, b: Bit)
    ensures TextOf(bs + [b]) == TextOf(bs) + Text(b)
  {
    assert (bs + [b])[..|bs|] == bs;
  }

  lemma TailOneMore(bs: seq<Bit>, b: Bit)
    ensures Tail(bs + [b]) == if b.Letter? then Tail(bs) + [b.c] else ""
  {
    assert (bs + [b])[..|bs|] == bs;
  }

  lemma WrittenOneMore(bs: seq<Bit>, b: Bit, t: string, u: string)
    requires Written(bs, t) && IsWritten(b, u) && |t| == |TextOf(bs)|
    ensures Written(bs + [b], t + u)
  {
    hide IsWritten, TextOf;
    assert (bs + [b])[..|bs|] == bs;
    assert (t + u)[..|t|] == t && (t + u)[|t|..] == u;
  }

  /** One letter on: the depth stays zero, and it is accented. */
  lemma LetterStep(v: string, n: nat)
    requires n < |v| && Depth(v, n) == 0 && v[n] != '{'
    ensures Depth(v, n + 1) == 0 && LiteralStart(v, n + 1) == LiteralStart(v, n)
    ensures Core(Accent, v, n + 1) == Core(Accent, v, n) + [Accent(v[n])]
  {
    hide Accent;
  }

  lemma LetterFits(v: string, bs: seq<Bit>, n: nat, c: char)
    requires Fits(v, bs, n) && n < |v| && v[n] == c && c != '{'
    ensures Fits(v, bs + [Letter(c)], n + 1)
  {
    hide Depth, Core, LiteralStart, Written, TextOf, Tail, Accent, IsAccented;
    LetterStep(v, n);
    AccentIff(c, Accent(c));
    TextOneMore(bs, Letter(c));
    TailOneMore(bs, Letter(c));
    WrittenOneMore(bs, Letter(c), Core(Accent, v, n), [Accent(c)]);
    assert v[..n + 1] == v[..n] + [c];
    assert v[n - |Tail(bs)|..n + 1] == v[n - |Tail(bs)|..n] + [c];
  }

  /** From n to m all characters are in a placeable, so they are copied. */
  lemma {:induction false} Copied(v: string, n: nat, m: nat)
    requires n <= m <= |v| && forall i :: n <= i < m ==> Inside(v, i)
    ensures Core(Accent, v, m) == Core(Accent, v, n) + v[n..m]
  {
    if m > n {
      Copied(v, n, m - 1);
      assert v[n..m] == v[n..m - 1] + [v[m - 1]];
    }
  }

  lemma PlaceableFits(v: string, bs: seq<Bit>, n: nat, body: string)
    requires Fits(v, bs, n) && Legal(Placeable(body)) && n + |body| + 2 <= |v|
    requires v[n..n + |body| + 2] == Text(Placeable(body))
    ensures Fits(v, bs + [Placeable(body)], n + |body| + 2)
  {
    hide Depth, Core, LiteralStart, Written, TextOf, Tail, Accent, Legal;
    var b, m := Placeable(body), n + |body| + 2;
    PlaceableIsInside(v, n, body);
    Copied(v, n, m);
    StartsAfter(v, m);
    TextOneMore(bs, b);
    TailOneMore(bs, b);
    WrittenOneMore(bs, b, Core(Accent, v, n), v[n..m]);
    assert v[..m] == v[..n] + v[n..m];
    assert v[m..m] == "";
  }

  lemma StartsAfter(v: string, m: nat)
    requires 0 < m <= |v| && Inside(v, m - 1)
    ensures LiteralStart(v, m) == m
  {}

  lemma PlaceableIsInside(v: string, n: nat, body: string)
    requires n + |body| + 2 <= |v| && v[n..n + |body| + 2] == Text(Placeable(body))
    requires Depth(v, n) == 0 && Legal(Placeable(body))
    ensures forall i :: n <= i < n + |body| + 2 ==> Inside(v, i)
    ensures Depth(v, n + |body| + 2) == 0
  {
    var m := n + |body| + 2;
    var t := v[n..m];
    assert v[n] == t[0] && v[m - 1] == t[|body| + 1];
    assert v[n + 1..m - 1] == t[1..|body| + 1];
    assert t[1..|body| + 1] == body;
    forall i | n <= i < m ensures Inside(v, i) {
      if i > n { DepthInside(v, n, body, i - n - 1); }
    }
    DepthInside(v, n, body, |body|);
    assert body[..|body|] == body;
  }

  lemma NoBitsFit(v: string)
    ensures Fits(v, [], 0)
  {
    assert v[0..0] == "";
  }

  lemma {:induction false} BitsFit(v: string, bs: seq<Bit>)
    requires AllLegal(bs) && |TextOf(bs)| <= |v| && v[..|TextOf(bs)|] == TextOf(bs)
    ensures Fits(v, bs, |TextOf(bs)|)
    decreases |bs|
  {
    hide Fits, TextOf;
    if bs == [] {
      NoText();
      NoBitsFit(v);
    } else {
      var init, last := bs[..|bs| - 1], bs[|bs| - 1];
      assert bs == init + [last];
      TextOneMore(init, last);
      var n, m := |TextOf(init)|, |TextOf(bs)|;
      assert v[..n] == v[..m][..n];
      assert v[n..m] == v[..m][n..];
      BitsFit(v, init);
      match last
      case Letter(c) =>
        assert v[n] == v[n..m][0];
        LetterFits(v, init, n, c);
      case Placeable(body) => PlaceableFits(v, init, n, body);
    }
  }

  lemma NoText()
    ensures TextOf([]) == ""
  {}

  /** A value made of such bits is transformed bit by bit, and padded for its tail. */
  lemma TransformMeans(bs: seq<Bit>) returns (t: string, p: string)
    requires AllLegal(bs)
    ensures Transformed(TextOf(bs)) == Some(t + p) && Written(bs, t) && IsPadding(Tail(bs), p)
  {
    hide Written, IsPadding, Padding, Depth, Core, LiteralStart, TextOf;
    var v := TextOf(bs);
    assert v[..|v|] == v;
    BitsFit(v, bs);
    t, p := Core(Accent, v, |v|), Padding(Tail(bs));
    PaddingMeans(Tail(bs));
    assert v[LiteralStart(v, |v|)..|v|] == v[LiteralStart(v, |v|)..];
  }

  /** A value whose last opening brace is never closed is refused. */
  lemma UnclosedIsRefused(bs: seq<Bit>, body: string)
    requires AllLegal(bs) && StaysIn(body)
    ensures Transformed(TextOf(bs) + "{" + body) == None
  {
    hide TextOf, Fits, Depth, AllLegal, StaysIn, Core, Padding, LiteralStart;
    var v, n := TextOf(bs) + "{" + body, |TextOf(bs)|;
    assert v[..n] == TextOf(bs);
    BitsFit(v, bs);
    FitsAtZero(v, bs, n);
    DepthAtEnd(v, n, body);
  }

  lemma FitsAtZero(v: string, bs: seq<Bit>, n: nat)
    requires Fits(v, bs, n)
    ensures n <= |v| && Depth(v, n) == 0
  {}

  lemma DepthAtEnd(v: string, n: nat, body: string)
    requires n < |v| && Depth(v, n) == 0 && v == v[..n] + "{" + body && StaysIn(body)
    ensures Depth(v, |v|) > 0
  {
    hide Depth, Level;
    assert v[n] == '{' && v[n + 1..n + 1 + |body|] == body;
    DepthInside(v, n, body, |body|);
    assert body[..|body|] == body;
    assert Level(body[..|body|]) >= 0;
  }

  /** Every value is the one or the other. */
  lemma {:induction false} EveryValueIsBits(v: string) returns (bs: seq<Bit>, open: bool, body: string)
    ensures AllLegal(bs)
    ensures if open then StaysIn(body) && v == TextOf(bs) + "{" + body else v == TextOf(bs)
    decreases |v|
  {
    if v == "" {
      bs, open, body := [], false, "";
    } else {
      var init, c := v[..|v| - 1], v[|v| - 1];
      assert v == init + [c];
      bs, open, body := EveryValueIsBits(init);
      if open {
        bs, open, body := MoreInside(bs, body, c);
      } else if c == '{' {
        open, body := true, "";
        assert body[..0] == "";
        assert v == TextOf(bs) + "{" + body;
      } else {
        bs := OneBitMore(bs, Letter(c));
      }
    }
  }

  lemma OneBitMore(bs: seq<Bit>, b: Bit) returns (all: seq<Bit>)
    requires AllLegal(bs) && Legal(b)
    ensures AllLegal(all) && TextOf(all) == TextOf(bs) + Text(b)
  {
    hide TextOf;
    all := bs + [b];
    TextOneMore(bs, b);
  }

  lemma MoreInside(bs: seq<Bit>, body: string, c: char) returns (all: seq<Bit>, open: bool, more: string)
    requires AllLegal(bs) && StaysIn(body)
    ensures AllLegal(all)
    ensures var v := TextOf(bs) + "{" + body + [c];
            if open then StaysIn(more) && v == TextOf(all) + "{" + more else v == TextOf(all)
  {
    hide TextOf, AllLegal, Level;
    assert body[..|body|] == body;
    if c == '}' && Level(body) == 0 {
      all := OneBitMore(bs, Placeable(body));
      open, more := false, "";
      assert TextOf(bs) + "{" + body + [c] == TextOf(bs) + Text(Placeable(body));
    } else {
      all, open, more := bs, true, body + [c];
      assert more[..|body|] == body;
      LevelOneMore(body, c);
      forall k | 0 <= k <= |more| ensures Level(more[..k]) >= 0 {
        if k <= |body| { assert more[..k] == body[..k]; } else { assert more[..k] == more; }
      }
    }
  }

  lemma LevelOneMore(s: string, c: char)
    ensures Level(s + [c]) == Level(s) + (if c == '{' then 1 else if c == '}' then -1 else 0)
  {
    assert (s + [c])[..|s|] == s;
  }
}
