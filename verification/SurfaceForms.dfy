/** What the lexer hides, written out: quoted literals, line comments, and block comments with a comment inside. */
module SurfaceForms {
  import opened Text
  import opened DeclarationLexer

  // ----- Quoted literals -----------------------------------------------------------------

  /** The text of a literal, its quotes doubled. */
  function Doubled(s: string, quote: char): string {
    if s == "" then "" else (if s[0] == quote then [quote, quote] else [s[0]]) + Doubled(s[1..], quote)
  }

  function Literal(s: string, quote: char): string {
    [quote] + (Doubled(s, quote) + [quote])
  }

  lemma QuoteStep(c: char, rest: string, quote: char)
    ensures c == quote ==> QuotedSpan([c, c] + rest, quote) == QuotedSpan(rest, quote).After(2)
    ensures c != quote ==> QuotedSpan([c] + rest, quote) == QuotedSpan(rest, quote).After(1)
  {
    assert ([c, c] + rest)[2..] == rest && ([c] + rest)[1..] == rest;
  }

  lemma QuoteCloses(t: string, quote: char)
    requires t == "" || t[0] != quote
    ensures QuotedSpan([quote] + t, quote) == Span(1, true)
  {
  }

  lemma {:induction false} LiteralSpan(s: string, quote: char, t: string)
    requires t == "" || t[0] != quote
    ensures QuotedSpan(Doubled(s, quote) + ([quote] + t), quote) == Span(|Doubled(s, quote)| + 1, true)
  {
    hide QuotedSpan;
    if s == "" {
      QuoteCloses(t, quote);
      assert Doubled(s, quote) + ([quote] + t) == [quote] + t;
    } else {
      LiteralSpan(s[1..], quote, t);
      var rest := Doubled(s[1..], quote) + ([quote] + t);
      QuoteStep(s[0], rest, quote);
      Associate(if s[0] == quote then [quote, quote] else [s[0]], Doubled(s[1..], quote), [quote] + t);
    }
  }

  lemma TokenThen(token: string, t: string)
    requires token != "" && TokenSpan(token + t) == Span(|token|, true) && Hidden(token + t)
    ensures Surface(token + t) == Blank(token) + Surface(t)
  {
    hide Surface, TokenSpan, Hidden;
    SurfaceUnfold(token + t);
    assert (token + t)[..|token|] == token && (token + t)[|token|..] == t;
  }

  /** A literal in either quotes is hidden as a whole, whatever it holds, and nothing behind it is. */
  lemma LiteralIsHidden(s: string, quote: char, t: string)
    requires (quote == '\'' || quote == '"') && (t == "" || t[0] != quote)
    ensures Surface(Literal(s, quote) + t) == Blank(Literal(s, quote)) + Surface(t)
  {
    hide QuotedSpan, Surface, Blank, Doubled;
    var token := Literal(s, quote);
    LiteralSpan(s, quote, t);
    assert (token + t)[1..] == Doubled(s, quote) + ([quote] + t);
    TokenThen(token, t);
  }

  // ----- Comments ------------------------------------------------------------------------

  lemma {:induction false} LineEnds(s: string, t: string)
    requires forall i :: 0 <= i < |s| ==> s[i] != '\n'
    ensures LineSpan(s + ("\n" + t)) == Span(|s| + 1, true)
  {
    if s == "" {
      assert s + ("\n" + t) == "\n" + t;
    } else {
      LineEnds(s[1..], t);
      assert (s + ("\n" + t))[1..] == s[1..] + ("\n" + t);
    }
  }

  lemma LineToken(s: string, t: string)
    requires forall i :: 0 <= i < |s| ==> s[i] != '\n'
    ensures var token := "--" + (s + "\n"); TokenSpan(token + t) == Span(|token|, true) && Hidden(token + t)
  {
    LineEnds(s, t);
    assert ("--" + (s + "\n") + t)[2..] == s + ("\n" + t);
  }

  /** A line comment is hidden up to its line break. */
  lemma LineCommentIsHidden(s: string, t: string)
    requires forall i :: 0 <= i < |s| ==> s[i] != '\n'
    ensures Surface("--" + (s + "\n") + t) == Blank("--" + (s + "\n")) + Surface(t)
  {
    hide Surface, Blank, TokenSpan, Hidden;
    LineToken(s, t);
    TokenThen("--" + (s + "\n"), t);
  }

  /** No comment mark in it, and none begins with its last character. */
  predicate Unmarked(s: string) {
    && (forall i :: 0 <= i < |s| - 1 ==> !(s[i] == '/' && s[i + 1] == '*') && !(s[i] == '*' && s[i + 1] == '/'))
    && (s == "" || (s[|s| - 1] != '/' && s[|s| - 1] != '*'))
  }

  lemma {:induction false} UnmarkedSpan(s: string, rest: string)
    requires Unmarked(s) && rest != ""
    ensures CommentSpan(s + rest) == CommentSpan(rest).After(|s|)
  {
    hide CommentSpan;
    if s == "" {
      assert s + rest == rest;
    } else {
      var whole := s + rest;
      CommentUnfold(whole);
      assert whole[1..] == s[1..] + rest;
      assert |s| > 1 ==> whole[1] == s[1];
      UnmarkedTail(s);
      UnmarkedSpan(s[1..], rest);
    }
  }

  lemma UnmarkedTail(s: string)
    requires Unmarked(s) && s != ""
    ensures Unmarked(s[1..])
  {
    var t := s[1..];
    assert forall i :: 0 <= i < |t| ==> t[i] == s[i + 1];
  }

  lemma CommentEnds(s: string, t: string)
    requires Unmarked(s)
    ensures CommentSpan(s + ("*/" + t)) == Span(|s| + 2, true)
  {
    hide CommentSpan;
    UnmarkedSpan(s, "*/" + t);
    CommentUnfold("*/" + t);
  }

  lemma InnerComment(a: string, b: string, c: string, t: string)
    requires Unmarked(a) && Unmarked(b) && Unmarked(c)
    ensures CommentSpan(a + ("/*" + (b + ("*/" + (c + ("*/" + t)))))) == Span(|a| + |b| + |c| + 6, true)
  {
    hide CommentSpan, Unmarked;
    var tail := c + ("*/" + t);
    var inner := b + ("*/" + tail);
    CommentEnds(b, tail);
    CommentEnds(c, t);
    CommentUnfold("/*" + inner);
    assert ("/*" + inner)[2..] == inner;
    assert inner[|b| + 2..] == tail;
    DropDrop("/*" + inner, 2, |b| + 2);
    UnmarkedSpan(a, "/*" + inner);
  }

  function Comment(s: string): string {
    "/*" + (s + "*/")
  }

  lemma CommentToken(s: string, t: string)
    requires CommentSpan(s + ("*/" + t)) == Span(|s| + 2, true)
    ensures TokenSpan(Comment(s) + t) == Span(|Comment(s)|, true) && Hidden(Comment(s) + t)
  {
    hide CommentSpan;
    assert (Comment(s) + t)[2..] == s + ("*/" + t);
  }

  /** What a block comment may hold: plain text, or plain text around one comment. */
  datatype Inside = Flat(text: string) | Around(before: string, inner: string, after: string) {
    predicate Valid() {
      match this
      case Flat(text) => Unmarked(text)
      case Around(before, inner, after) => Unmarked(before) && Unmarked(inner) && Unmarked(after)
    }

    function Text(): string {
      match this
      case Flat(text) => text
      case Around(before, inner, after) => before + (Comment(inner) + after)
    }
  }

  lemma InsideToken(inside: Inside, t: string)
    requires inside.Valid()
    ensures var token := Comment(inside.Text());
            TokenSpan(token + t) == Span(|token|, true) && Hidden(token + t)
  {
    hide CommentSpan, Unmarked, TokenSpan, Hidden;
    match inside
    case Flat(text) =>
      CommentEnds(text, t);
      CommentToken(text, t);
    case Around(before, inner, after) =>
      InnerComment(before, inner, after, t);
      assert before + (Comment(inner) + after) + ("*/" + t)
          == before + ("/*" + (inner + ("*/" + (after + ("*/" + t)))));
      CommentToken(inside.Text(), t);
  }

  /** A block comment is hidden up to its own end, not that of a comment inside it. */
  lemma CommentIsHidden(inside: Inside, t: string)
    requires inside.Valid()
    ensures Surface(Comment(inside.Text()) + t) == Blank(Comment(inside.Text())) + Surface(t)
  {
    hide Surface, Blank, TokenSpan, Hidden, Inside.Text, Inside.Valid;
    InsideToken(inside, t);
    TokenThen(Comment(inside.Text()), t);
  }
}
