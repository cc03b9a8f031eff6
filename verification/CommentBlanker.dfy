/** Blanking comments out of chrome sources so that every finding keeps its line
    and column: a five-mode scan, and the lexer it agrees with. */
module CommentBlanker {

  // ---- the reference lexer -----------------------------------------------

  const LINE := "//"
  const BLOCK := "/*"
  const BLOCK_END := "*/"
  const HTML := "<!--"
  const HTML_END := "-->"

  predicate At(s: string, i: nat, pat: string) {
    i + |pat| <= |s| && s[i..i + |pat|] == pat
  }

  predicate IsQuote(c: char) { c == '\'' || c == '"' || c == '`' }

  /** Just past the first occurrence of `pat` from i on, or the end of the text. */
  function PastFirst(s: string, i: nat, pat: string): (e: nat)
    requires i <= |s|
    ensures i <= e <= |s|
    decreases |s| - i
  {
    if At(s, i, pat) then i + |pat|
    else if i == |s| then i
    else PastFirst(s, i + 1, pat)
  }

  /** The next newline from i on, or the end of the text. */
  function LineEnd(s: string, i: nat): (e: nat)
    requires i <= |s|
    ensures i <= e <= |s|
    ensures forall k :: i <= k < e ==> s[k] != '\n'
    decreases |s| - i
  {
    if i == |s| || s[i] == '\n' then i else LineEnd(s, i + 1)
  }

  /** Just past the quote that closes the literal whose body starts at i. */
  function QuoteEnd(s: string, i: nat, quote: char, escaped: bool): (e: nat)
    requires i <= |s|
    ensures i <= e <= |s|
    decreases |s| - i
  {
    if i == |s| then i
    else if escaped then QuoteEnd(s, i + 1, quote, false)
    else if s[i] == '\\' then QuoteEnd(s, i + 1, quote, true)
    else if s[i] == quote then i + 1
    else QuoteEnd(s, i + 1, quote, false)
  }

  /** A stretch of source: a comment, a quoted literal, or one other character. */
  datatype Token = Comment(end: nat) | Quoted(end: nat) | Plain

  function TokenAt(s: string, i: nat): (t: Token)
    requires i < |s|
    ensures !t.Plain? ==> i < t.end <= |s|
  {
    if At(s, i, HTML) then Comment(PastFirst(s, i + 4, HTML_END))
    else if At(s, i, LINE) then Comment(LineEnd(s, i + 2))
    else if At(s, i, BLOCK) then Comment(PastFirst(s, i + 2, BLOCK_END))
    else if IsQuote(s[i]) then Quoted(QuoteEnd(s, i + 1, s[i], false))
    else Plain
  }

  /** Spaces for everything but newlines. */
  function Erase(s: string): (r: string)
    ensures |r| == |s|
    ensures forall k :: 0 <= k < |s| ==> r[k] == if s[k] == '\n' then '\n' else ' '
  {
    if s == "" then "" else [if s[0] == '\n' then '\n' else ' '] + Erase(s[1..])
  }

  /** The text from i on with its comments erased. */
  function Blanked(s: string, i: nat): (r: string)
    requires i <= |s|
    ensures |r| == |s| - i
    decreases |s| - i
  {
    if i == |s| then ""
    else
      match TokenAt(s, i)
      case Comment(e) => Erase(s[i..e]) + Blanked(s, e)
      case Quoted(e) => s[i..e] + Blanked(s, e)
      case Plain => [s[i]] + Blanked(s, i + 1)
  }

  // ---- the scan ----------------------------------------------------------

  datatype Mode = Code | InLine | InBlock | InHtml | InQuote

  /** What is still to be written when the scan stands at i in the given mode. */
  function Rest(s: string, i: nat, mode: Mode, quote: char, escaped: bool): string
    requires i <= |s|
  {
    match mode
    case Code => Blanked(s, i)
    case InLine => var e := LineEnd(s, i); Erase(s[i..e]) + Blanked(s, e)
    case InBlock => var e := PastFirst(s, i, BLOCK_END); Erase(s[i..e]) + Blanked(s, e)
    case InHtml => var e := PastFirst(s, i, HTML_END); Erase(s[i..e]) + Blanked(s, e)
    case InQuote => var e := QuoteEnd(s, i, quote, escaped); s[i..e] + Blanked(s, e)
  }

  function Blank(c: char): char { if c == '\n' then '\n' else ' ' }

  /** Taking the first character off an erased stretch. */
  lemma ErasedHead(s: string, i: nat, e: nat, tail: string)
    requires i < e <= |s|
    ensures Erase(s[i..e]) + tail == [Blank(s[i])] + (Erase(s[i + 1..e]) + tail)
  {
    assert s[i..e][1..] == s[i + 1..e];
  }

  lemma KeptHead(s: string, i: nat, e: nat, tail: string)
    requires i < e <= |s|
    ensures s[i..e] + tail == [s[i]] + (s[i + 1..e] + tail)
  {}

  /** One character of a comment body. */
  lemma CommentStep(s: string, i: nat, mode: Mode, quote: char, escaped: bool)
    requires i < |s|
    requires (mode == InLine && s[i] != '\n') || (mode == InBlock && !At(s, i, BLOCK_END)) ||
             (mode == InHtml && !At(s, i, HTML_END))
    ensures Rest(s, i, mode, quote, escaped) == [Blank(s[i])] + Rest(s, i + 1, mode, quote, escaped)
  {
    var e := if mode == InLine then LineEnd(s, i)
             else if mode == InBlock then PastFirst(s, i, BLOCK_END)
             else PastFirst(s, i, HTML_END);
    ErasedHead(s, i, e, Blanked(s, e));
  }

  predicate IsGap(gap: string, pat: string) {
    |gap| == |pat| && '\n' !in pat && forall k :: 0 <= k < |gap| ==> gap[k] == ' '
  }

  /** A delimiter erases to as many spaces. */
  lemma ErasedDelimiter(s: string, i: nat, pat: string, gap: string, e: nat, tail: string)
    requires At(s, i, pat) && i + |pat| <= e <= |s| && IsGap(gap, pat)
    ensures Erase(s[i..e]) + tail == gap + (Erase(s[i + |pat|..e]) + tail)
  {
    GapErases(s[i..e], pat, gap);
    assert s[i..e][..|pat|] == pat;
    assert s[i..e][|pat|..] == s[i + |pat|..e];
    Assoc(gap, Erase(s[i + |pat|..e]), tail);
  }

  lemma GapErases(t: string, pat: string, gap: string)
    requires |pat| <= |t| && t[..|pat|] == pat && IsGap(gap, pat)
    ensures Erase(t) == gap + Erase(t[|pat|..])
  {
    hide Erase;
    forall k | 0 <= k < |t| ensures Erase(t)[k] == (gap + Erase(t[|pat|..]))[k] {
      if k < |pat| { assert t[..|pat|][k] == pat[k]; } else { assert t[|pat|..][k - |pat|] == t[k]; }
    }
  }

  lemma Assoc(a: string, b: string, c: string)
    ensures (a + b) + c == a + (b + c)
  {}

  /** The delimiter that closes a comment. */
  lemma CommentClose(s: string, i: nat, mode: Mode, pat: string, gap: string, quote: char, escaped: bool)
    requires (mode == InBlock && pat == BLOCK_END) || (mode == InHtml && pat == HTML_END)
    requires At(s, i, pat) && IsGap(gap, pat)
    ensures Rest(s, i, mode, quote, escaped) == gap + Rest(s, i + |pat|, Code, quote, escaped)
  {
    var e := i + |pat|;
    ErasedDelimiter(s, i, pat, gap, e, Blanked(s, e));
    assert Erase(s[e..e]) + Blanked(s, e) == Blanked(s, e);
  }

  /** The delimiter that opens a comment. */
  lemma CommentOpen(s: string, i: nat, mode: Mode, pat: string, gap: string, quote: char, escaped: bool)
    requires i < |s| && At(s, i, pat) && IsGap(gap, pat)
    requires (mode == InHtml && pat == HTML) || (mode == InLine && pat == LINE && !At(s, i, HTML)) ||
             (mode == InBlock && pat == BLOCK && !At(s, i, HTML) && !At(s, i, LINE))
    ensures Rest(s, i, Code, quote, escaped) == gap + Rest(s, i + |pat|, mode, quote, escaped)
  {
    var e := TokenAt(s, i).end;
    ErasedDelimiter(s, i, pat, gap, e, Blanked(s, e));
  }

  lemma QuoteStep(s: string, i: nat, quote: char, escaped: bool)
    requires i < |s|
    ensures Rest(s, i, InQuote, quote, escaped) == [s[i]] +
            (if !escaped && s[i] != '\\' && s[i] == quote then Rest(s, i + 1, Code, quote, escaped)
             else Rest(s, i + 1, InQuote, quote, !escaped && s[i] == '\\'))
  {
    var e := QuoteEnd(s, i, quote, escaped);
    KeptHead(s, i, e, Blanked(s, e));
    if e == i + 1 { assert s[e..e] + Blanked(s, e) == Blanked(s, e); }
  }

  lemma QuoteOpen(s: string, i: nat, escaped: bool)
    requires i < |s| && TokenAt(s, i).Quoted?
    ensures Rest(s, i, Code, s[i], escaped) == [s[i]] + Rest(s, i + 1, InQuote, s[i], false)
  {
    var e := TokenAt(s, i).end;
    KeptHead(s, i, e, Blanked(s, e));
  }

  lemma FirstOf(s: string, i: nat, pat: string)
    requires |pat| > 0
    ensures At(s, i, pat) ==> s[i] == pat[0]
  {
    if At(s, i, pat) { assert s[i..i + |pat|][0] == pat[0]; }
  }

  lemma NoDelimiterHere(s: string, i: nat)
    requires i < |s| && s[i] != '<' && s[i] != '/'
    ensures !TokenAt(s, i).Comment?
  {
    FirstOf(s, i, HTML);
    FirstOf(s, i, LINE);
    FirstOf(s, i, BLOCK);
  }

  lemma LineClose(s: string, i: nat, quote: char, escaped: bool)
    requires i < |s| && s[i] == '\n'
    ensures Rest(s, i, InLine, quote, escaped) == [s[i]] + Rest(s, i + 1, Code, quote, escaped)
  {
    NoDelimiterHere(s, i);
    PlainStep(s, i, quote, escaped);
    EmptyHead(s, i, Blanked(s, i));
  }

  lemma EmptyHead(s: string, i: nat, tail: string)
    requires i <= |s|
    ensures Erase(s[i..i]) + tail == tail
  {}

  lemma PlainStep(s: string, i: nat, quote: char, escaped: bool)
    requires i < |s| && TokenAt(s, i).Plain?
    ensures Rest(s, i, Code, quote, escaped) == [s[i]] + Rest(s, i + 1, Code, quote, escaped)
  {}

  /** The scan agrees with the lexer on every text. */
  method BlankComments(s: string) returns (out: string)
    ensures out == Blanked(s, 0)
  {
    out := "";
    var mode, quote, escaped := Code, ' ', false;
    var i := 0;
    while i < |s|
      invariant i <= |s|
      invariant Blanked(s, 0) == out + Rest(s, i, mode, quote, escaped)
    {
      var piece: string;
      piece, i, mode, quote, escaped := Turn(s, i, mode, quote, escaped);
      out := out + piece;
    }
  }

  /** One turn of the loop: what it writes and where it stands afterwards. */
  method Turn(s: string, i: nat, mode: Mode, quote: char, escaped: bool)
    returns (piece: string, i': nat, mode': Mode, quote': char, escaped': bool)
    requires i < |s|
    ensures i < i' <= |s|
    ensures Rest(s, i, mode, quote, escaped) == piece + Rest(s, i', mode', quote', escaped')
  {
    var ch := s[i];
    piece, i', mode', quote', escaped' := [ch], i + 1, mode, quote, escaped;
    match mode
    case InLine =>
      if ch == '\n' {
        LineClose(s, i, quote, escaped);
        mode' := Code;
      } else {
        CommentStep(s, i, mode, quote, escaped);
        piece := " ";
      }
    case InBlock =>
      piece, i', mode' := TurnInComment(s, i, mode, BLOCK_END, "  ", quote, escaped);
    case InHtml =>
      piece, i', mode' := TurnInComment(s, i, mode, HTML_END, "   ", quote, escaped);
    case InQuote =>
      QuoteStep(s, i, quote, escaped);
      if escaped {
        escaped' := false;
      } else if ch == '\\' {
        escaped' := true;
      } else if ch == quote {
        mode' := Code;
      }
    case Code =>
      piece, i', mode', quote', escaped' := TurnInCode(s, i, quote, escaped);
  }

  /** A block or HTML comment: its closing delimiter, or one more character. */
  method TurnInComment(s: string, i: nat, mode: Mode, end: string, gap: string, quote: char, escaped: bool)
    returns (piece: string, i': nat, mode': Mode)
    requires i < |s| && IsGap(gap, end)
    requires (mode == InBlock && end == BLOCK_END) || (mode == InHtml && end == HTML_END)
    ensures i < i' <= |s|
    ensures Rest(s, i, mode, quote, escaped) == piece + Rest(s, i', mode', quote, escaped)
  {
    if At(s, i, end) {
      CommentClose(s, i, mode, end, gap, quote, escaped);
      return gap, i + |end|, Code;
    }
    CommentStep(s, i, mode, quote, escaped);
    return if s[i] == '\n' then "\n" else " ", i + 1, mode;
  }

  method TurnInCode(s: string, i: nat, quote: char, escaped: bool)
    returns (piece: string, i': nat, mode': Mode, quote': char, escaped': bool)
    requires i < |s|
    ensures i < i' <= |s|
    ensures Rest(s, i, Code, quote, escaped) == piece + Rest(s, i', mode', quote', escaped')
  {
    quote', escaped' := quote, escaped;
    if At(s, i, HTML) {
      CommentOpen(s, i, InHtml, HTML, "    ", quote, escaped);
      piece, i', mode' := "    ", i + 4, InHtml;
    } else if At(s, i, LINE) {
      CommentOpen(s, i, InLine, LINE, "  ", quote, escaped);
      piece, i', mode' := "  ", i + 2, InLine;
    } else if At(s, i, BLOCK) {
      CommentOpen(s, i, InBlock, BLOCK, "  ", quote, escaped);
      piece, i', mode' := "  ", i + 2, InBlock;
    } else if IsQuote(s[i]) {
      QuoteOpen(s, i, escaped);
      piece, i', mode', quote', escaped' := [s[i]], i + 1, InQuote, s[i], false;
    } else {
      PlainStep(s, i, quote, escaped);
      piece, i', mode' := [s[i]], i + 1, Code;
    }
  }

  // ---- what blanking keeps -----------------------------------------------

  /** Every character is kept, or is a blanked non-newline. */
  predicate KeptOrBlank(s: string, b: string) {
    |s| == |b| && forall k :: 0 <= k < |s| ==> b[k] == s[k] || (b[k] == ' ' && s[k] != '\n')
  }

  lemma {:induction false} BlankedFrom(s: string, i: nat)
    requires i <= |s|
    ensures KeptOrBlank(s[i..], Blanked(s, i))
    decreases |s| - i
  {
    hide TokenAt, Erase, KeptOrBlank;
    if i < |s| {
      match TokenAt(s, i)
      case Comment(e) =>
        BlankedFrom(s, e);
        ErasedThen(s, i, e, Blanked(s, e));
      case Quoted(e) =>
        BlankedFrom(s, e);
        KeptThen(s, i, e, Blanked(s, e));
      case Plain =>
        BlankedFrom(s, i + 1);
        assert s[i..i + 1] == [s[i]];
        KeptThen(s, i, i + 1, Blanked(s, i + 1));
    } else {
      NothingKept(s[i..]);
    }
  }

  lemma NothingKept(s: string)
    requires s == ""
    ensures KeptOrBlank(s, "")
  {}

  lemma ErasedThen(s: string, i: nat, e: nat, rest: string)
    requires i <= e <= |s| && KeptOrBlank(s[e..], rest)
    ensures KeptOrBlank(s[i..], Erase(s[i..e]) + rest)
  {
    hide Erase;
    PiecesKeep(s, i, e, Erase(s[i..e]), rest);
  }

  lemma KeptThen(s: string, i: nat, e: nat, rest: string)
    requires i <= e <= |s| && KeptOrBlank(s[e..], rest)
    ensures KeptOrBlank(s[i..], s[i..e] + rest)
  {
    PiecesKeep(s, i, e, s[i..e], rest);
  }

  lemma PiecesKeep(s: string, i: nat, e: nat, head: string, rest: string)
    requires i <= e <= |s| && KeptOrBlank(s[i..e], head) && KeptOrBlank(s[e..], rest)
    ensures KeptOrBlank(s[i..], head + rest)
  {
    forall k | 0 <= k < |s| - i
      ensures (head + rest)[k] == s[i..][k] || ((head + rest)[k] == ' ' && s[i..][k] != '\n')
    {
      if k < e - i { assert s[i..][k] == s[i..e][k]; } else { assert s[i..][k] == s[e..][k - (e - i)]; }
    }
  }

  /** Same length, and position by position the character or a blank; newlines
      are in exactly the same places. */
  lemma BlankingKeepsPositions(s: string)
    ensures KeptOrBlank(s, Blanked(s, 0))
    ensures forall k :: 0 <= k < |s| ==> (Blanked(s, 0)[k] == '\n' <==> s[k] == '\n')
  {
    BlankedFrom(s, 0);
    assert s[0..] == s;
  }

  /** i starts a token of the text. */
  predicate Boundary(s: string, i: nat, from: nat)
    requires from <= |s|
    decreases |s| - from
  {
    i == from ||
    (from < |s| && i > from &&
     match TokenAt(s, from)
     case Plain => Boundary(s, i, from + 1)
     case Comment(e) => Boundary(s, i, e)
     case Quoted(e) => Boundary(s, i, e))
  }

  /** Position k lies in a comment that starts at a token boundary. */
  ghost predicate InComment(s: string, k: nat) {
    exists i: nat :: i <= k < |s| && Boundary(s, i, 0) && TokenAt(s, i).Comment? && k < TokenAt(s, i).end
  }

  /** The character blanking leaves at k: itself outside comments, and inside
      them a space or the newline. */
  lemma BlankingIsExact(s: string, k: nat)
    requires k < |s|
    ensures Blanked(s, 0)[k] == if InComment(s, k) && s[k] != '\n' then ' ' else s[k]
  {
    var i := TokenOver(s, k, 0);
    BlankedOver(s, i, k);
    OnlyCommentsCover(s, k, i);
  }

  lemma BlankedOver(s: string, i: nat, k: nat)
    requires i <= k < |s| && Boundary(s, i, 0)
    requires if TokenAt(s, i).Plain? then k == i else k < TokenAt(s, i).end
    ensures Blanked(s, 0)[k] == if TokenAt(s, i).Comment? then Blank(s[k]) else s[k]
  {
    BlankedAt(s, i, 0);
    Shifted(Blanked(s, 0), Blanked(s, i), i, k);
    WithinToken(s, i, k);
  }

  lemma Shifted(b: string, t: string, i: nat, k: nat)
    requires i <= k < |b| && b[i..] == t
    ensures k - i < |t| && b[k] == t[k - i]
  {}

  /** What a token writes at one of its positions. */
  lemma WithinToken(s: string, i: nat, k: nat)
    requires i <= k < |s| && (if TokenAt(s, i).Plain? then k == i else k < TokenAt(s, i).end)
    ensures Blanked(s, i)[k - i] == if TokenAt(s, i).Comment? then Blank(s[k]) else s[k]
  {
    match TokenAt(s, i)
    case Comment(e) => assert s[i..e][k - i] == s[k];
    case Quoted(e) => assert s[i..e][k - i] == s[k];
    case Plain =>
  }

  lemma OnlyCommentsCover(s: string, k: nat, i: nat)
    requires i <= k < |s| && Boundary(s, i, 0)
    requires if TokenAt(s, i).Plain? then k == i else k < TokenAt(s, i).end
    ensures InComment(s, k) <==> TokenAt(s, i).Comment?
  {
    if j: nat :| j <= k && Boundary(s, j, 0) && TokenAt(s, j).Comment? && k < TokenAt(s, j).end {
      OneTokenOver(s, k, i, j, 0);
    }
  }

  /** The token that covers position k. */
  lemma {:induction false} TokenOver(s: string, k: nat, from: nat) returns (i: nat)
    requires from <= k < |s|
    ensures from <= i <= k && Boundary(s, i, from)
    ensures if TokenAt(s, i).Plain? then k == i else k < TokenAt(s, i).end
    decreases |s| - from
  {
    var next := match TokenAt(s, from) case Plain => from + 1 case Comment(e) => e case Quoted(e) => e;
    if k < next { i := from; } else { i := TokenOver(s, k, next); }
  }

  lemma {:induction false} OneTokenOver(s: string, k: nat, i: nat, j: nat, from: nat)
    requires from <= i <= k < |s| && from <= j <= k && Boundary(s, i, from) && Boundary(s, j, from)
    requires if TokenAt(s, i).Plain? then k == i else k < TokenAt(s, i).end
    requires if TokenAt(s, j).Plain? then k == j else k < TokenAt(s, j).end
    ensures i == j
    decreases |s| - from
  {
    var next := match TokenAt(s, from) case Plain => from + 1 case Comment(e) => e case Quoted(e) => e;
    if i != from { BoundaryAfter(s, i, next); }
    if j != from { BoundaryAfter(s, j, next); }
    if i != from && j != from { OneTokenOver(s, k, i, j, next); }
  }

  lemma {:induction false} BoundaryAfter(s: string, i: nat, from: nat)
    requires from <= |s| && Boundary(s, i, from)
    ensures from <= i <= |s|
    decreases |s| - from
  {
    if i != from {
      match TokenAt(s, from)
      case Plain => BoundaryAfter(s, i, from + 1);
      case Comment(e) => BoundaryAfter(s, i, e);
      case Quoted(e) => BoundaryAfter(s, i, e);
    }
  }

  lemma {:induction false} BlankedAt(s: string, i: nat, from: nat)
    requires from <= i <= |s| && Boundary(s, i, from)
    ensures Blanked(s, from)[i - from..] == Blanked(s, i)
    decreases |s| - from
  {
    if i != from {
      var next := match TokenAt(s, from) case Plain => from + 1 case Comment(e) => e case Quoted(e) => e;
      BoundaryAfter(s, i, next);
      BlankedAt(s, i, next);
      var whole := Blanked(s, from);
      assert whole[next - from..] == Blanked(s, next);
      assert whole[i - from..] == whole[next - from..][i - next..];
    }
  }

  // ---- idempotence -------------------------------------------------------

  /** A comment delimiter in the blanked text was one in the source. */
  lemma DelimiterWasThere(s: string, b: string, i: nat, pat: string)
    requires KeptOrBlank(s, b) && At(b, i, pat) && forall k :: 0 <= k < |pat| ==> pat[k] != ' '
    ensures At(s, i, pat)
  {
    forall k | 0 <= k < |pat| ensures s[i + k] == pat[k] {
      assert b[i..i + |pat|][k] == pat[k];
    }
    assert s[i..i + |pat|] == pat;
  }

  lemma BlankIsPlain(b: string, i: nat)
    requires i < |b| && (b[i] == ' ' || b[i] == '\n')
    ensures Blanked(b, i) == [b[i]] + Blanked(b, i + 1)
  {
    NoDelimiterHere(b, i);
  }

  /** Blanks and newlines lex as themselves. */
  lemma {:induction false} BlanksStay(b: string, i: nat, e: nat)
    requires i <= e <= |b| && forall k :: i <= k < e ==> b[k] == ' ' || b[k] == '\n'
    ensures Blanked(b, i) == b[i..e] + Blanked(b, e)
    decreases e - i
  {
    if i == e {
      hide Blanked;
      assert b[i..e] + Blanked(b, e) == Blanked(b, e);
    } else {
      BlankIsPlain(b, i);
      hide Blanked;
      BlanksStay(b, i + 1, e);
      KeptHead(b, i, e, Blanked(b, e));
    }
  }

  /** A literal that was kept whole closes in the same place. */
  lemma {:induction false} QuoteEndStays(s: string, b: string, i: nat, quote: char, escaped: bool)
    requires |s| == |b| && i <= |s|
    requires forall k :: i <= k < QuoteEnd(s, i, quote, escaped) ==> b[k] == s[k]
    ensures QuoteEnd(b, i, quote, escaped) == QuoteEnd(s, i, quote, escaped)
    decreases |s| - i
  {
    if i < |s| {
      assert b[i] == s[i];
      if escaped { QuoteEndStays(s, b, i + 1, quote, false); }
      else if s[i] == '\\' { QuoteEndStays(s, b, i + 1, quote, true); }
      else if s[i] != quote { QuoteEndStays(s, b, i + 1, quote, false); }
    }
  }

  /** Cutting a text that is a head of known length and a tail. */
  lemma Cut(b: string, i: nat, e: nat, head: string, tail: string)
    requires i <= e <= |b| && |head| == e - i && b[i..] == head + tail
    ensures b[i..e] == head && b[e..] == tail && b[i..] == b[i..e] + b[e..]
    ensures forall k :: i <= k < e ==> b[k] == head[k - i]
  {
    assert b[i..e] == b[i..][..e - i];
    assert b[e..] == b[i..][e - i..];
    assert forall k :: i <= k < e ==> b[k] == b[i..e][k - i];
  }

  lemma {:induction false} IdempotentFrom(s: string, b: string, i: nat)
    requires i <= |s| && KeptOrBlank(s, b) && b[i..] == Blanked(s, i)
    ensures Blanked(b, i) == b[i..]
    decreases |s| - i
  {
    hide At, Erase, PastFirst, LineEnd, QuoteEnd;
    if i < |s| {
      match TokenAt(s, i)
      case Comment(e) =>
        Cut(b, i, e, Erase(s[i..e]), Blanked(s, e));
        IdempotentFrom(s, b, e);
        BlanksStay(b, i, e);
      case Quoted(e) =>
        Cut(b, i, e, s[i..e], Blanked(s, e));
        IdempotentFrom(s, b, e);
        LiteralStays(s, b, i);
      case Plain =>
        Cut(b, i, i + 1, [s[i]], Blanked(s, i + 1));
        IdempotentFrom(s, b, i + 1);
        NoNewComment(s, b, i);
    }
  }

  /** A literal that was kept is the same literal in the blanked text. */
  lemma LiteralStays(s: string, b: string, i: nat)
    requires i < |s| && KeptOrBlank(s, b) && TokenAt(s, i).Quoted?
    requires forall k :: i <= k < TokenAt(s, i).end ==> b[k] == s[i..TokenAt(s, i).end][k - i]
    ensures TokenAt(b, i) == TokenAt(s, i)
  {
    var e := TokenAt(s, i).end;
    assert forall k :: i <= k < e ==> s[k] == s[i..e][k - i];
    assert b[i] == s[i];
    NoNewComment(s, b, i);
    QuoteEndStays(s, b, i + 1, s[i], false);
  }

  lemma NoNewComment(s: string, b: string, i: nat)
    requires i < |s| && KeptOrBlank(s, b) && !TokenAt(s, i).Comment?
    ensures !At(b, i, HTML) && !At(b, i, LINE) && !At(b, i, BLOCK)
  {
    if At(b, i, HTML) { DelimiterWasThere(s, b, i, HTML); }
    if At(b, i, LINE) { DelimiterWasThere(s, b, i, LINE); }
    if At(b, i, BLOCK) { DelimiterWasThere(s, b, i, BLOCK); }
  }

  /** Blanking a blanked text changes nothing. */
  lemma BlankingIsIdempotent(s: string)
    ensures Blanked(Blanked(s, 0), 0) == Blanked(s, 0)
  {
    BlankingKeepsPositions(s);
    var b := Blanked(s, 0);
    assert b[0..] == b;
    IdempotentFrom(s, b, 0);
  }

  // ---- lines -------------------------------------------------------------

  /** `split(/\r?\n/)`. */
  function Lines(s: string): (r: seq<string>)
    ensures |r| >= 1
  {
    if s == "" then [""]
    else
      var rest := Lines(s[1..]);
      if s[0] == '\n' then [""] + rest
      else if s[0] == '\r' && |s| > 1 && s[1] == '\n' then rest
      else [[s[0]] + rest[0]] + rest[1..]
  }

  function Newlines(s: string): nat {
    if s == "" then 0 else (if s[0] == '\n' then 1 else 0) + Newlines(s[1..])
  }

  lemma {:induction false} LineCount(s: string)
    ensures |Lines(s)| == 1 + Newlines(s)
  {
    if s != "" { LineCount(s[1..]); }
  }

  lemma {:induction false} SameNewlines(s: string, b: string)
    requires KeptOrBlank(s, b)
    ensures Newlines(s) == Newlines(b)
  {
    if s != "" {
      assert KeptOrBlank(s[1..], b[1..]);
      SameNewlines(s[1..], b[1..]);
    }
  }

  /** Source and blanked text split into the same number of lines, so a finding's
      line number always names a source line. */
  lemma SameLineCount(s: string)
    ensures |Lines(Blanked(s, 0))| == |Lines(s)|
  {
    BlankingKeepsPositions(s);
    LineCount(s);
    LineCount(Blanked(s, 0));
    SameNewlines(s, Blanked(s, 0));
  }
}
