/** Laws of the declaration surface that hold for every text. */
module SurfaceLaws {
  import opened Text
  import opened DeclarationLexer

  // ----- A closed token depends only on its own characters -------------------------------

  predicate SamePrefix(x: string, y: string, n: nat) {
    n <= |x| && n <= |y| && forall i :: 0 <= i < n ==> x[i] == y[i]
  }

  lemma {:induction false} QuotedAgree(x: string, y: string, quote: char)
    requires QuotedSpan(x, quote).closed && SamePrefix(x, y, QuotedSpan(x, quote).len)
    requires var n := QuotedSpan(x, quote).len; n < |y| ==> y[n] != quote
    ensures QuotedSpan(y, quote) == QuotedSpan(x, quote)
  {
    if x[0] != quote {
      QuotedAgree(x[1..], y[1..], quote);
    } else if |x| > 1 && x[1] == quote {
      QuotedAgree(x[2..], y[2..], quote);
    }
  }

  lemma {:induction false} QuotedNotFollowed(x: string, quote: char)
    requires QuotedSpan(x, quote).closed && QuotedSpan(x, quote).len < |x|
    ensures x[QuotedSpan(x, quote).len] != quote
  {
    if x[0] != quote {
      QuotedNotFollowed(x[1..], quote);
    } else if x[1] == quote {
      QuotedNotFollowed(x[2..], quote);
    }
  }

  lemma {:induction false} LineAgree(x: string, y: string)
    requires LineSpan(x).closed && SamePrefix(x, y, LineSpan(x).len)
    ensures LineSpan(y) == LineSpan(x)
  {
    if x[0] != '\n' {
      LineAgree(x[1..], y[1..]);
    }
  }

  lemma {:induction false} DepthAgree(x: string, y: string, depth: nat)
    requires depth > 0
    requires DepthSpan(x, depth).closed && SamePrefix(x, y, DepthSpan(x, depth).len)
    ensures DepthSpan(y, depth) == DepthSpan(x, depth)
  {
    if StartsPair(x, '/', '*') {
      DepthAgree(x[2..], y[2..], depth + 1);
    } else if StartsPair(x, '*', '/') {
      if depth > 1 {
        DepthAgree(x[2..], y[2..], depth - 1);
      }
    } else {
      DepthSpanLong(x[1..], depth);
      DepthAgree(x[1..], y[1..], depth);
    }
  }

  /** A closed span has room for its closing pair. */
  lemma DepthSpanLong(x: string, depth: nat)
    requires depth > 0 && DepthSpan(x, depth).closed
    ensures DepthSpan(x, depth).len >= 2
  {
  }

  lemma TokenAgree(x: string, y: string)
    requires x != "" && TokenSpan(x).closed && SamePrefix(x, y, TokenSpan(x).len)
    requires var n := TokenSpan(x).len; n < |y| ==> !Joins(x[..n], y[n])
    ensures TokenSpan(y) == TokenSpan(x)
    ensures Hidden(y) == Hidden(x)
  {
    hide QuotedSpan, LineSpan, CommentSpan, DepthSpan;
    var n := TokenSpan(x).len;
    if x[0] == '\'' || x[0] == '"' || x[0] == '[' {
      var quote := if x[0] == '[' then ']' else x[0];
      QuotedLong(x[1..], quote);
      QuotedAgree(x[1..], y[1..], quote);
    } else if StartsPair(x, '-', '-') {
      LineAgree(x[2..], y[2..]);
    } else if StartsPair(x, '/', '*') {
      DepthIsNesting(x[2..], 1);
      DepthIsNesting(y[2..], 1);
      DepthAgree(x[2..], y[2..], 1);
    } else {
      assert x[..1] == [x[0]];
    }
  }

  lemma QuotedLong(x: string, quote: char)
    requires QuotedSpan(x, quote).closed
    ensures QuotedSpan(x, quote).len >= 1
  {
  }

  lemma TokenNotFollowed(x: string)
    requires x != "" && TokenSpan(x).closed && TokenSpan(x).len < |x|
    ensures !Joins(x[..TokenSpan(x).len], x[TokenSpan(x).len])
  {
    hide QuotedSpan, LineSpan, CommentSpan;
    if x[0] == '\'' || x[0] == '"' || x[0] == '[' {
      var quote := if x[0] == '[' then ']' else x[0];
      QuotedNotFollowed(x[1..], quote);
    } else if !StartsPair(x, '-', '-') && !StartsPair(x, '/', '*') {
      assert x[..1] == [x[0]];
    }
  }

  lemma NeverJoins(token: string, c: char)
    requires token == "" || c == ' '
    ensures !Joins(token, c)
  {
  }

  // ----- Shape ---------------------------------------------------------------------------

  /** Every character is kept or becomes a space, and newlines are always kept, so offsets and
      line numbers survive. */
  lemma {:induction false} KeepsShape(s: string)
    ensures forall i :: 0 <= i < |s| ==> Surface(s)[i] == s[i] || Surface(s)[i] == ' '
    ensures forall i :: 0 <= i < |s| ==> (Surface(s)[i] == '\n' <==> s[i] == '\n')
  {
    if s != "" {
      SurfaceUnfold(s);
      hide Surface, TokenSpan;
      var n := TokenSpan(s).len;
      KeepsShape(s[n..]);
      forall i | 0 <= i < |s|
        ensures Surface(s)[i] == s[i] || Surface(s)[i] == ' '
        ensures Surface(s)[i] == '\n' <==> s[i] == '\n'
      {
        if i < n {
          assert Surface(s)[i] == BlankIf(Hidden(s), s[..n])[i];
        } else {
          assert Surface(s)[i] == Surface(s[n..])[i - n];
        }
      }
    }
  }

  // ----- Composition ---------------------------------------------------------------------

  /** The lexer, run on `s`, is in its normal state between the characters at k - 1 and k. */
  predicate Boundary(s: string, k: nat) {
    k == 0 || (s != "" && TokenSpan(s).len <= k && Boundary(s[TokenSpan(s).len..], k - TokenSpan(s).len))
  }

  /** Lexing a concatenation: when `a` leaves the lexer in its normal state and the cut splits no
      two-character token, the parts are lexed separately. */
  lemma {:induction false} Compositional(a: string, b: string)
    requires EndsNormal(a) && SplitsNothing(a, b)
    ensures Surface(a + b) == Surface(a) + Surface(b)
    ensures EndsNormal(a + b) == EndsNormal(b)
    ensures Boundary(a + b, |a|)
  {
    hide TokenSpan, Joins, Surface;
    if b != "" {
      NeverJoins("", b[0]);
    }
    if a == "" {
      assert a + b == b;
      SurfaceEmpty();
    } else {
      var n := TokenSpan(a).len;
      assert TokenSpan(a).closed;
      if n < |a| {
        TokenNotFollowed(a);
      } else {
        assert a[..n] == a;
      }
      TokenAgree(a, a + b);
      assert (a + b)[..n] == a[..n];
      assert (a + b)[n..] == a[n..] + b;
      Compositional(a[n..], b);
      SurfaceUnfold(a);
      SurfaceUnfold(a + b);
      Associate(BlankIf(Hidden(a), a[..n]), Surface(a[n..]), Surface(b));
    }
  }

  /** The cut of `a + b` is one the lexer crosses in its normal state exactly when `a` alone ends
      in the normal state and its last token does not run on into `b`. */
  lemma {:induction false} CutIsBoundary(a: string, b: string)
    requires b != ""
    ensures Boundary(a + b, |a|) <==> EndsNormal(a) && SplitsNothing(a, b)
  {
    hide TokenSpan, Joins, Surface;
    NeverJoins("", b[0]);
    if EndsNormal(a) && SplitsNothing(a, b) {
      Compositional(a, b);
    } else if Boundary(a + b, |a|) {
      assert a != "";
      var n := TokenSpan(a + b).len;
      TokenNotFollowed(a + b);
      TokenAgree(a + b, a);
      assert (a + b)[..n] == a[..n];
      assert (a + b)[n..] == a[n..] + b;
      CutIsBoundary(a[n..], b);
    }
  }

  /** Neither opens nor continues a token of more than one character. */
  predicate Plain(c: char) {
    c != '\'' && c != '"' && c != '[' && c != '-' && c != '/'
  }

  lemma {:induction false} PlainPrefix(x: string, t: string)
    requires forall i :: 0 <= i < |x| ==> Plain(x[i])
    ensures Surface(x + t) == x + Surface(t)
    ensures EndsNormal(x + t) == EndsNormal(t)
  {
    hide Surface;
    if x == "" {
      assert x + t == t;
    } else {
      assert (x + t)[1..] == x[1..] + t;
      assert (x + t)[..1] == x[..1];
      PlainToken(x + t);
      SurfaceUnfold(x + t);
      PlainPrefix(x[1..], t);
      Associate(x[..1], x[1..], Surface(t));
      assert x[..1] + x[1..] == x;
    }
  }

  lemma PlainToken(s: string)
    requires s != "" && Plain(s[0])
    ensures TokenSpan(s) == Span(1, true) && !Hidden(s)
  {
  }

  // ----- Idempotence ---------------------------------------------------------------------

  /** Lexing a surface changes nothing: no quote or comment opener is left in it, and none arises
      where hidden text was blanked out. */
  lemma {:induction false} Idempotent(s: string)
    ensures Surface(Surface(s)) == Surface(s)
  {
    hide Surface, TokenSpan, Joins, Hidden;
    SurfaceEmpty();
    if s != "" {
      var n := TokenSpan(s).len;
      var rest := Surface(s[n..]);
      SurfaceUnfold(s);
      Idempotent(s[n..]);
      if Hidden(s) {
        PlainPrefix(Blank(s[..n]), rest);
      } else if TokenSpan(s).closed {
        var y := s[..n] + rest;
        if n < |s| {
          KeepsShape(s[n..]);
          TokenNotFollowed(s);
          NeverJoins(s[..n], ' ');
        }
        TokenAgree(s, y);
        SurfaceUnfold(y);
        assert y[..n] == s[..n] && y[n..] == rest;
      } else {
        assert s[..n] == s && s[n..] == "";
        assert BlankIf(Hidden(s), s[..n]) == s;
        assert Surface(s) == s;
      }
    }
  }
}
