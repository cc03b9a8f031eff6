/** What blanking does, spelt out: a source is a row of comments, literals and other
    characters, and each of them is blanked or kept. */
module CommentMeaning {
  import opened CommentBlanker

  /** A piece of source. An open one runs to the end of the text unclosed. */
  datatype Piece =
    | LineComment(body: string)
    | BlockComment(body: string) | OpenBlock(body: string)
    | HtmlComment(body: string) | OpenHtml(body: string)
    | Literal(quote: char, body: string) | OpenLiteral(quote: char, body: string)
    | Other(c: char)

  ghost function Text(p: Piece): string {
    match p
    case LineComment(body) => "//" + body
    case BlockComment(body) => "/*" + body + "*/"
    case OpenBlock(body) => "/*" + body
    case HtmlComment(body) => "<!--" + body + "-->"
    case OpenHtml(body) => "<!--" + body
    case Literal(q, body) => [q] + body + [q]
    case OpenLiteral(q, body) => [q] + body
    case Other(c) => [c]
  }

  /** Newlines where there were newlines, and blanks otherwise. */
  ghost predicate IsBlanked(s: string, t: string) {
    |t| == |s| && forall k :: 0 <= k < |s| ==> t[k] == if s[k] == '\n' then '\n' else ' '
  }

  ghost predicate IsComment(p: Piece) {
    p.LineComment? || p.BlockComment? || p.OpenBlock? || p.HtmlComment? || p.OpenHtml?
  }

  /** Comments are blanked, everything else is kept. */
  ghost predicate IsWritten(p: Piece, t: string) { if IsComment(p) then IsBlanked(Text(p), t) else t == Text(p) }

  /** No star directly before a slash. */
  ghost predicate NoStarSlash(s: string) { forall k :: 0 <= k < |s| - 1 ==> !(s[k] == '*' && s[k + 1] == '/') }

  ghost predicate NoArrow(s: string) {
    forall k :: 0 <= k < |s| - 2 ==> !(s[k] == '-' && s[k + 1] == '-' && s[k + 2] == '>')
  }

  /** Neither the quote nor a backslash, but for backslashes with a character each. */
  ghost predicate StaysOpen(body: string, q: char) {
    body == "" ||
    (body[0] == '\\' && |body| >= 2 && StaysOpen(body[2..], q)) ||
    (body[0] != '\\' && body[0] != q && StaysOpen(body[1..], q))
  }

  ghost predicate OpensComment(s: string) {
    || (|s| >= 2 && s[0] == '/' && s[1] == '/') || (|s| >= 2 && s[0] == '/' && s[1] == '*')
    || (|s| >= 4 && s[0] == '<' && s[1] == '!' && s[2] == '-' && s[3] == '-')
  }

  /** The piece can stand where `rest` follows. */
  ghost predicate Fits(p: Piece, rest: string) {
    match p
    case LineComment(body) => '\n' !in body && (rest == "" || rest[0] == '\n')
    case BlockComment(body) => NoStarSlash(body + "*")
    case OpenBlock(body) => NoStarSlash(body) && rest == ""
    case HtmlComment(body) => NoArrow(body + "--")
    case OpenHtml(body) => NoArrow(body) && rest == ""
    case Literal(q, body) => (q == '\'' || q == '"' || q == '`') && StaysOpen(body, q)
    case OpenLiteral(q, body) =>
      && (q == '\'' || q == '"' || q == '`') && rest == ""
      && (StaysOpen(body, q) ||
          (body != "" && body[|body| - 1] == '\\' && StaysOpen(body[..|body| - 1], q)))
    case Other(c) => c != '\'' && c != '"' && c != '`' && !OpensComment([c] + rest)
  }

  ghost function TextOf(ps: seq<Piece>): string {
    if ps == [] then "" else Text(ps[0]) + TextOf(ps[1..])
  }

  ghost predicate FitTogether(ps: seq<Piece>) {
    ps != [] ==> Fits(ps[0], TextOf(ps[1..])) && FitTogether(ps[1..])
  }

  /** t is what is written for the pieces, one after the other. */
  ghost predicate Written(ps: seq<Piece>, t: string) {
    if ps == [] then t == ""
    else
      var n := |Text(ps[0])|;
      n <= |t| && IsWritten(ps[0], t[..n]) && Written(ps[1..], t[n..])
  }

  // ---- delimiters --------------------------------------------------------

  lemma AtLine(s: string, i: nat)
    requires i <= |s|
    ensures At(s, i, LINE) <==> i + 1 < |s| && s[i] == '/' && s[i + 1] == '/'
    ensures At(s, i, BLOCK) <==> i + 1 < |s| && s[i] == '/' && s[i + 1] == '*'
    ensures At(s, i, BLOCK_END) <==> i + 1 < |s| && s[i] == '*' && s[i + 1] == '/'
  {
    if i + 2 <= |s| { assert s[i..i + 2] == [s[i], s[i + 1]]; }
  }

  lemma AtHtml(s: string, i: nat)
    requires i <= |s|
    ensures At(s, i, HTML) <==> i + 3 < |s| && s[i] == '<' && s[i + 1] == '!' && s[i + 2] == '-' && s[i + 3] == '-'
  {
    if i + 4 <= |s| { assert s[i..i + 4] == [s[i], s[i + 1], s[i + 2], s[i + 3]]; }
  }

  lemma AtArrow(s: string, i: nat)
    requires i <= |s|
    ensures At(s, i, HTML_END) <==> i + 2 < |s| && s[i] == '-' && s[i + 1] == '-' && s[i + 2] == '>'
  {
    if i + 3 <= |s| { assert s[i..i + 3] == [s[i], s[i + 1], s[i + 2]]; }
  }

  lemma {:induction false} PastFirstIs(s: string, i: nat, pat: string, j: nat)
    requires i <= j <= |s| && (forall k :: i <= k < j ==> !At(s, k, pat))
    requires At(s, j, pat) || (j == |s| && !At(s, j, pat))
    ensures PastFirst(s, i, pat) == if At(s, j, pat) then j + |pat| else |s|
    decreases j - i
  {
    hide At;
    if i < j { PastFirstIs(s, i + 1, pat, j); }
  }

  lemma {:induction false} LineEndIs(s: string, i: nat, j: nat)
    requires i <= j <= |s| && (forall k :: i <= k < j ==> s[k] != '\n') && (j == |s| || s[j] == '\n')
    ensures LineEnd(s, i) == j
    decreases j - i
  {
    if i < j { LineEndIs(s, i + 1, j); }
  }

  /** A body that stays open does not close the literal. */
  lemma {:induction false} QuoteEndPasses(s: string, i: nat, q: char, body: string)
    requires i + |body| <= |s| && s[i..i + |body|] == body && StaysOpen(body, q) && q != '\\'
    ensures QuoteEnd(s, i, q, false) == QuoteEnd(s, i + |body|, q, false)
    decreases |body|
  {
    if body != "" {
      assert s[i] == body[0];
      if body[0] == '\\' {
        assert s[i + 2..i + |body|] == body[2..];
        assert QuoteEnd(s, i, q, false) == QuoteEnd(s, i + 1, q, true) == QuoteEnd(s, i + 2, q, false);
        QuoteEndPasses(s, i + 2, q, body[2..]);
      } else {
        assert s[i + 1..i + |body|] == body[1..];
        QuoteEndPasses(s, i + 1, q, body[1..]);
      }
    }
  }

  // ---- one piece ---------------------------------------------------------

  /** The source from i on is p and then rest. */
  ghost predicate Stands(s: string, i: nat, p: Piece, rest: string) {
    i <= |s| && s[i..] == Text(p) + rest
  }

  lemma Standing(s: string, i: nat, p: Piece, rest: string)
    requires Stands(s, i, p, rest)
    ensures var e := i + |Text(p)|;
            e <= |s| && s[i..e] == Text(p) && s[e..] == rest && |s| == e + |rest|
    ensures forall k :: i <= k < i + |Text(p)| ==> s[k] == Text(p)[k - i]
    ensures forall k :: i <= k < |s| ==> s[k] == (Text(p) + rest)[k - i]
  {
    var e := i + |Text(p)|;
    assert s[i..][..|Text(p)|] == s[i..e];
    assert s[i..][|Text(p)|..] == s[e..];
    forall k | i <= k < |s| ensures s[k] == (Text(p) + rest)[k - i] { assert s[k] == s[i..][k - i]; }
  }

  /** What the lexer makes of a piece that stands there. */
  ghost predicate LexesAs(s: string, i: nat, p: Piece)
    requires i < |s|
  {
    var e := i + |Text(p)|;
    if IsComment(p) then TokenAt(s, i) == Comment(e)
    else if p.Other? then TokenAt(s, i) == Plain
    else TokenAt(s, i) == Quoted(e)
  }

  lemma LineLexes(s: string, i: nat, p: Piece, rest: string)
    requires p.LineComment? && Stands(s, i, p, rest) && Fits(p, rest)
    ensures i < |s| && LexesAs(s, i, p)
  {
    Standing(s, i, p, rest);
    AtLine(s, i);
    AtHtml(s, i);
    var e := i + |Text(p)|;
    forall k | i + 2 <= k < e ensures s[k] != '\n' { assert s[k] == p.body[k - i - 2]; }
    if rest != "" { assert s[e] == s[e..][0]; }
    LineEndIs(s, i + 2, e);
  }

  lemma BlockLexes(s: string, i: nat, p: Piece, rest: string)
    requires (p.BlockComment? || p.OpenBlock?) && Stands(s, i, p, rest) && Fits(p, rest)
    ensures i < |s| && LexesAs(s, i, p)
  {
    hide At, TokenAt, PastFirst;
    Standing(s, i, p, rest);
    var j := i + 2 + |p.body|;
    forall k | i + 2 <= k < j ensures !At(s, k, BLOCK_END) {
      AtLine(s, k);
      if p.BlockComment? {
        assert (p.body + "*")[k - i - 2] == s[k] && (p.body + "*")[k - i - 1] == s[k + 1];
      } else if k + 1 < j {
        assert p.body[k - i - 2] == s[k] && p.body[k - i - 1] == s[k + 1];
      }
    }
    AtLine(s, j);
    AtLine(s, i);
    AtHtml(s, i);
    PastFirstIs(s, i + 2, BLOCK_END, j);
    BlockToken(s, i);
  }

  lemma BlockToken(s: string, i: nat)
    requires i < |s| && At(s, i, BLOCK) && !At(s, i, LINE) && !At(s, i, HTML)
    ensures TokenAt(s, i) == Comment(PastFirst(s, i + 2, BLOCK_END))
  {}

  lemma HtmlLexes(s: string, i: nat, p: Piece, rest: string)
    requires (p.HtmlComment? || p.OpenHtml?) && Stands(s, i, p, rest) && Fits(p, rest)
    ensures i < |s| && LexesAs(s, i, p)
  {
    hide At, TokenAt, PastFirst;
    Standing(s, i, p, rest);
    var j := i + 4 + |p.body|;
    forall k | i + 4 <= k < j ensures !At(s, k, HTML_END) {
      AtArrow(s, k);
      if p.HtmlComment? {
        assert (p.body + "--")[k - i - 4] == s[k];
        assert (p.body + "--")[k - i - 3] == s[k + 1] && (p.body + "--")[k - i - 2] == s[k + 2];
      } else if k + 2 < j {
        assert p.body[k - i - 4] == s[k] && p.body[k - i - 3] == s[k + 1] && p.body[k - i - 2] == s[k + 2];
      }
    }
    AtArrow(s, j);
    AtHtml(s, i);
    PastFirstIs(s, i + 4, HTML_END, j);
    HtmlToken(s, i);
  }

  lemma HtmlToken(s: string, i: nat)
    requires i < |s| && At(s, i, HTML)
    ensures TokenAt(s, i) == Comment(PastFirst(s, i + 4, HTML_END))
  {}

  lemma QuoteToken(s: string, i: nat, q: char)
    requires i < |s| && s[i] == q && (q == '\'' || q == '"' || q == '`')
    ensures TokenAt(s, i) == Quoted(QuoteEnd(s, i + 1, q, false))
  {
    AtLine(s, i);
    AtHtml(s, i);
  }

  lemma LiteralLexes(s: string, i: nat, p: Piece, rest: string)
    requires (p.Literal? || p.OpenLiteral?) && Stands(s, i, p, rest) && Fits(p, rest)
    ensures i < |s| && LexesAs(s, i, p)
  {
    hide TokenAt, StaysOpen, QuoteEnd;
    Standing(s, i, p, rest);
    QuoteToken(s, i, p.quote);
    var j := i + 1 + |p.body|;
    assert s[i + 1..j] == p.body by {
      forall k | i + 1 <= k < j ensures s[k] == p.body[k - i - 1] {}
    }
    if StaysOpen(p.body, p.quote) {
      QuoteEndPasses(s, i + 1, p.quote, p.body);
      if p.Literal? { assert s[j] == p.quote; }
      QuoteEndAt(s, j, p.quote);
    } else {
      var init := p.body[..|p.body| - 1];
      assert s[i + 1..j - 1] == init;
      QuoteEndPasses(s, i + 1, p.quote, init);
      assert s[j - 1] == '\\';
      QuoteEndAt(s, j - 1, p.quote);
    }
  }

  /** A literal ends at the end of the text, just past its quote, or with a backslash
      that nothing follows. */
  lemma QuoteEndAt(s: string, j: nat, q: char)
    requires j <= |s| && q != '\\'
    ensures j == |s| ==> QuoteEnd(s, j, q, false) == j
    ensures j < |s| && s[j] == q ==> QuoteEnd(s, j, q, false) == j + 1
    ensures j == |s| - 1 && s[j] == '\\' ==> QuoteEnd(s, j, q, false) == j + 1
  {}

  lemma OtherLexes(s: string, i: nat, p: Piece, rest: string)
    requires p.Other? && Stands(s, i, p, rest) && Fits(p, rest)
    ensures i < |s| && LexesAs(s, i, p)
  {
    Standing(s, i, p, rest);
    AtLine(s, i);
    AtHtml(s, i);
    assert s[i] == p.c;
  }

  lemma PieceLexes(s: string, i: nat, p: Piece, rest: string)
    requires Stands(s, i, p, rest) && Fits(p, rest)
    ensures i < |s| && LexesAs(s, i, p)
  {
    hide LexesAs, Stands, Fits;
    match p
    case LineComment(_) => LineLexes(s, i, p, rest);
    case BlockComment(_) => BlockLexes(s, i, p, rest);
    case OpenBlock(_) => BlockLexes(s, i, p, rest);
    case HtmlComment(_) => HtmlLexes(s, i, p, rest);
    case OpenHtml(_) => HtmlLexes(s, i, p, rest);
    case Literal(_, _) => LiteralLexes(s, i, p, rest);
    case OpenLiteral(_, _) => LiteralLexes(s, i, p, rest);
    case Other(_) => OtherLexes(s, i, p, rest);
  }

  lemma PieceIsWritten(s: string, i: nat, p: Piece, rest: string)
    requires Stands(s, i, p, rest) && i < |s| && LexesAs(s, i, p)
    ensures var e := i + |Text(p)|; var t := Blanked(s, i);
            e <= |s| && |Text(p)| <= |t| && IsWritten(p, t[..|Text(p)|]) && t[|Text(p)|..] == Blanked(s, e)
  {
    hide TokenAt, Erase;
    Standing(s, i, p, rest);
    var n, t := |Text(p)|, Blanked(s, i);
    var e := i + n;
    if IsComment(p) {
      assert t == Erase(s[i..e]) + Blanked(s, e);
      assert t[..n] == Erase(s[i..e]);
    } else if p.Other? {
      assert t == [s[i]] + Blanked(s, i + 1);
    } else {
      assert t == s[i..e] + Blanked(s, e);
      assert t[..n] == s[i..e];
    }
  }

  // ---- the whole text ----------------------------------------------------

  lemma {:induction false} PiecesFrom(s: string, i: nat, ps: seq<Piece>)
    requires i <= |s| && s[i..] == TextOf(ps) && FitTogether(ps)
    ensures Written(ps, Blanked(s, i))
    decreases |ps|
  {
    hide Text, Fits, LexesAs, IsWritten, Blanked;
    if ps != [] {
      var rest := TextOf(ps[1..]);
      assert Stands(s, i, ps[0], rest);
      PieceLexes(s, i, ps[0], rest);
      PieceIsWritten(s, i, ps[0], rest);
      Standing(s, i, ps[0], rest);
      PiecesFrom(s, i + |Text(ps[0])|, ps[1..]);
    } else {
      NothingLeft(s, i);
    }
  }

  lemma NothingLeft(s: string, i: nat)
    requires i <= |s| && s[i..] == ""
    ensures Blanked(s, i) == ""
  {
    assert i == |s|;
  }

  /** However a source is cut into pieces that fit together, blanking writes just
      what is written for the pieces. */
  lemma BlankedIsWritten(ps: seq<Piece>)
    requires FitTogether(ps)
    ensures Written(ps, Blanked(TextOf(ps), 0))
  {
    assert TextOf(ps)[0..] == TextOf(ps);
    PiecesFrom(TextOf(ps), 0, ps);
  }

  /** A literal's body up to its closing quote, or to the end of the text. */
  lemma {:induction false} BodyOf(s: string, q: char) returns (body: string, closed: bool)
    requires q != '\\'
    ensures closed ==> StaysOpen(body, q) && |body| < |s| && s == body + [q] + s[|body| + 1..]
    ensures !closed ==> body == s
    ensures !closed ==> StaysOpen(s, q) || (s != "" && s[|s| - 1] == '\\' && StaysOpen(s[..|s| - 1], q))
  {
    hide StaysOpen;
    NoBody(q);
    if s == "" {
      body, closed := "", false;
    } else if s[0] == q {
      body, closed := "", true;
    } else if s[0] == '\\' && |s| == 1 {
      body, closed := s, false;
      assert s[..0] == "";
    } else {
      var n := if s[0] == '\\' then 2 else 1;
      var tail, over := BodyOf(s[n..], q);
      body, closed := s[..n] + tail, over;
      assert s == s[..n] + s[n..];
      if closed { OneMoreUnit(body, n, q); } else { OneMoreOpen(s, n, q); }
    }
  }

  lemma NoBody(q: char)
    ensures StaysOpen("", q)
  {}

  /** One unit in front of a body that stays open. */
  lemma OneMoreUnit(body: string, n: nat, q: char)
    requires 0 < n <= |body| && StaysOpen(body[n..], q)
    requires if body[0] == '\\' then n == 2 else n == 1 && body[0] != q
    ensures StaysOpen(body, q)
  {}

  lemma OneMoreOpen(s: string, n: nat, q: char)
    requires 0 < n <= |s| && (if s[0] == '\\' then n == 2 else n == 1 && s[0] != q)
    requires var t := s[n..];
             StaysOpen(t, q) || (t != "" && t[|t| - 1] == '\\' && StaysOpen(t[..|t| - 1], q))
    ensures StaysOpen(s, q) || (s != "" && s[|s| - 1] == '\\' && StaysOpen(s[..|s| - 1], q))
  {
    if StaysOpen(s[n..], q) {
      OneMoreUnit(s, n, q);
    } else {
      assert s[..|s| - 1][n..] == s[n..][..|s| - n - 1];
      OneMoreUnit(s[..|s| - 1], n, q);
    }
  }

  lemma {:induction false} BlockBody(s: string) returns (body: string, closed: bool)
    ensures closed ==> NoStarSlash(body + "*") && |body| + 2 <= |s| && s == body + "*/" + s[|body| + 2..]
    ensures !closed ==> body == s && NoStarSlash(s)
  {
    if k :| 0 <= k < |s| - 1 && s[k] == '*' && s[k + 1] == '/' {
      var j := FirstStarSlash(s, k);
      body, closed := s[..j], true;
    } else {
      body, closed := s, false;
    }
  }

  lemma {:induction false} FirstStarSlash(s: string, k: nat) returns (j: nat)
    requires k < |s| - 1 && s[k] == '*' && s[k + 1] == '/'
    ensures j <= k && s[j] == '*' && s[j + 1] == '/' && NoStarSlash(s[..j] + "*")
  {
    if i :| 0 <= i < k && s[i] == '*' && s[i + 1] == '/' { j := FirstStarSlash(s, i); } else { j := k; }
  }

  lemma {:induction false} HtmlBody(s: string) returns (body: string, closed: bool)
    ensures closed ==> NoArrow(body + "--") && |body| + 3 <= |s| && s == body + "-->" + s[|body| + 3..]
    ensures !closed ==> body == s && NoArrow(s)
  {
    if k :| 0 <= k < |s| - 2 && s[k] == '-' && s[k + 1] == '-' && s[k + 2] == '>' {
      var j := FirstArrow(s, k);
      body, closed := s[..j], true;
    } else {
      body, closed := s, false;
    }
  }

  lemma {:induction false} FirstArrow(s: string, k: nat) returns (j: nat)
    requires k < |s| - 2 && s[k] == '-' && s[k + 1] == '-' && s[k + 2] == '>'
    ensures j <= k && s[j] == '-' && s[j + 1] == '-' && s[j + 2] == '>' && NoArrow(s[..j] + "--")
  {
    if i :| 0 <= i < k && s[i] == '-' && s[i + 1] == '-' && s[i + 2] == '>' { j := FirstArrow(s, i); } else { j := k; }
  }

  lemma {:induction false} LineBody(s: string) returns (body: string)
    ensures '\n' !in body && body <= s && (s[|body|..] == "" || s[|body|..][0] == '\n')
  {
    if s == "" || s[0] == '\n' {
      body := "";
    } else {
      var tail := LineBody(s[1..]);
      body := [s[0]] + tail;
      assert s[|body|..] == s[1..][|tail|..];
    }
  }

  /** p is a piece at the start of s, and rest is what follows it. */
  ghost predicate Starts(s: string, p: Piece, rest: string) { s == Text(p) + rest && Fits(p, rest) && |rest| < |s| }

  lemma FirstLine(s: string) returns (p: Piece, rest: string)
    requires |s| >= 2 && s[0] == '/' && s[1] == '/'
    ensures Starts(s, p, rest)
  {
    var body := LineBody(s[2..]);
    p, rest := LineComment(body), s[2..][|body|..];
    assert s == "//" + s[2..];
  }

  lemma FirstBlock(s: string) returns (p: Piece, rest: string)
    requires |s| >= 2 && s[0] == '/' && s[1] == '*'
    ensures Starts(s, p, rest)
  {
    hide NoStarSlash;
    var body, closed := BlockBody(s[2..]);
    assert s == "/*" + s[2..];
    if closed {
      p, rest := BlockComment(body), s[2..][|body| + 2..];
    } else {
      p, rest := OpenBlock(body), "";
    }
  }

  lemma FirstHtml(s: string) returns (p: Piece, rest: string)
    requires |s| >= 4 && s[0] == '<' && s[1] == '!' && s[2] == '-' && s[3] == '-'
    ensures Starts(s, p, rest)
  {
    hide NoArrow;
    var body, closed := HtmlBody(s[4..]);
    assert s == "<!--" + s[4..];
    if closed {
      p, rest := HtmlComment(body), s[4..][|body| + 3..];
    } else {
      p, rest := OpenHtml(body), "";
    }
  }

  lemma FirstLiteral(s: string) returns (p: Piece, rest: string)
    requires s != "" && (s[0] == '\'' || s[0] == '"' || s[0] == '`')
    ensures Starts(s, p, rest)
  {
    hide StaysOpen;
    var body, closed := BodyOf(s[1..], s[0]);
    assert s == [s[0]] + s[1..];
    if closed {
      p, rest := Literal(s[0], body), s[1..][|body| + 1..];
    } else {
      p, rest := OpenLiteral(s[0], body), "";
    }
  }

  /** The piece that a text which is not empty starts with. */
  lemma FirstPiece(s: string) returns (p: Piece, rest: string)
    requires s != ""
    ensures Starts(s, p, rest)
  {
    if |s| >= 2 && s[0] == '/' && s[1] == '/' {
      p, rest := FirstLine(s);
    } else if |s| >= 2 && s[0] == '/' && s[1] == '*' {
      p, rest := FirstBlock(s);
    } else if |s| >= 4 && s[0] == '<' && s[1] == '!' && s[2] == '-' && s[3] == '-' {
      p, rest := FirstHtml(s);
    } else if s[0] == '\'' || s[0] == '"' || s[0] == '`' {
      p, rest := FirstLiteral(s);
    } else {
      p, rest := Other(s[0]), s[1..];
      assert s == [s[0]] + s[1..];
    }
  }

  /** Every source is such a row of pieces. */
  lemma {:induction false} EverySourceIsPieces(s: string) returns (ps: seq<Piece>)
    ensures TextOf(ps) == s && FitTogether(ps)
    decreases |s|
  {
    hide Text, Fits;
    ps := [];
    if s != "" {
      var p, rest := FirstPiece(s);
      var tail := EverySourceIsPieces(rest);
      ps := [p] + tail;
      assert ps[1..] == tail;
    }
  }

  // ---- lines -------------------------------------------------------------

  /** A text without its last carriage return. */
  ghost function Chopped(s: string): string { if s != "" && s[|s| - 1] == '\r' then s[..|s| - 1] else s }

  lemma {:induction false} OneLine(s: string)
    requires '\n' !in s
    ensures Lines(s) == [s]
  {
    if s != "" {
      OneLine(s[1..]);
      assert s == [s[0]] + s[1..];
    }
  }

  /** What stands before the first newline, a carriage return directly before it
      aside, is the first line, and what follows is split likewise. */
  lemma {:induction false} LinesMean(a: string, b: string)
    requires '\n' !in a
    ensures Lines(a + "\n" + b) == [Chopped(a)] + Lines(b)
  {
    var s := a + "\n" + b;
    if a == "" {
      assert s[1..] == b;
    } else {
      assert s[1..] == a[1..] + "\n" + b;
      LinesMean(a[1..], b);
      if a[0] == '\r' && |a| == 1 {
        assert a[1..] == "" && s[1] == '\n';
      } else {
        assert s[0] == a[0];
        if |a| > 1 { assert s[1] == a[1]; }
        assert Chopped(a) == [a[0]] + Chopped(a[1..]);
      }
    }
  }
}
