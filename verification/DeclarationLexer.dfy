/** The lexer that hides quoted and comment text before declarations are searched for. */
module DeclarationLexer {
  import opened Text

  datatype State = Normal | SingleQuote | DoubleQuote | Bracket | LineComment | BlockComment

  /** How far a token reaches and whether its closing delimiter was seen. */
  datatype Span = Span(len: nat, closed: bool) {
    function After(n: nat): Span {
      Span(n + len, closed)
    }
  }

  // ----- Token-level specification -------------------------------------------------------

  /** What follows an opening quote: a doubled quote character stands for itself. */
  function QuotedSpan(s: string, quote: char): (r: Span)
    ensures r.len <= |s|
    ensures !r.closed ==> r.len == |s|
  {
    if s == "" then Span(0, false)
    else if s[0] != quote then QuotedSpan(s[1..], quote).After(1)
    else if |s| > 1 && s[1] == quote then QuotedSpan(s[2..], quote).After(2)
    else Span(1, true)
  }

  function LineSpan(s: string): (r: Span)
    ensures r.len <= |s|
    ensures !r.closed ==> r.len == |s|
  {
    if s == "" then Span(0, false)
    else if s[0] == '\n' then Span(1, true)
    else LineSpan(s[1..]).After(1)
  }

  predicate StartsPair(s: string, first: char, second: char) {
    |s| > 1 && s[0] == first && s[1] == second
  }

  /** What follows a comment opener, with comments nested by recursion: no counter. */
  function CommentSpan(s: string): (r: Span)
    ensures r.len <= |s|
    ensures !r.closed ==> r.len == |s|
    decreases |s|
  {
    if s == "" then Span(0, false)
    else if StartsPair(s, '*', '/') then Span(2, true)
    else if StartsPair(s, '/', '*') then
      var inner := CommentSpan(s[2..]).After(2);
      CommentSpan(s[inner.len..]).After(inner.len)
    else CommentSpan(s[1..]).After(1)
  }

  /** The first token: a literal, a bracketed name, a comment, or one ordinary character. */
  function TokenSpan(s: string): (r: Span)
    requires s != ""
    ensures 1 <= r.len <= |s|
    ensures !r.closed ==> r.len == |s|
  {
    if s[0] == '\'' || s[0] == '"' then QuotedSpan(s[1..], s[0]).After(1)
    else if s[0] == '[' then QuotedSpan(s[1..], ']').After(1)
    else if StartsPair(s, '-', '-') then LineSpan(s[2..]).After(2)
    else if StartsPair(s, '/', '*') then CommentSpan(s[2..]).After(2)
    else Span(1, true)
  }

  /** Literals and comments are hidden; bracketed names and ordinary characters stay. */
  predicate Hidden(s: string) {
    s != "" && (s[0] == '\'' || s[0] == '"' || StartsPair(s, '-', '-') || StartsPair(s, '/', '*'))
  }

  function Blank(s: string): (r: string)
    ensures |r| == |s|
  {
    seq(|s|, i requires 0 <= i < |s| => if s[i] == '\n' then '\n' else ' ')
  }

  function BlankIf(hidden: bool, s: string): (r: string)
    ensures |r| == |s|
  {
    if hidden then Blank(s) else s
  }

  /** The declaration surface, token by token. Every character is kept or becomes a space, and
      newlines are always kept, so offsets and line numbers survive. */
  function Surface(s: string): (r: string)
    ensures |r| == |s|
  {
    if s == "" then "" else
    var n := TokenSpan(s).len;
    BlankIf(Hidden(s), s[..n]) + Surface(s[n..])
  }

  /** The lexer is back in its normal state after `s`: every token is closed. */
  predicate EndsNormal(s: string) {
    s == "" || (TokenSpan(s).closed && EndsNormal(s[TokenSpan(s).len..]))
  }

  /** The last token of a text. */
  function LastToken(s: string): string {
    if s == "" then "" else
    var n := TokenSpan(s).len;
    if n == |s| then s else LastToken(s[n..])
  }

  /** `c` right after the closed token `token` would be read as part of that token. */
  predicate Joins(token: string, c: char) {
    && token != ""
    && ( || (|token| > 1 && (token[0] == '\'' || token[0] == '"') && c == token[0])
         || (|token| > 1 && token[0] == '[' && c == ']')
         || (token == "-" && c == '-')
         || (token == "/" && c == '*'))
  }

  /** Appending `b` to `a` splits no two-character token. */
  predicate SplitsNothing(a: string, b: string) {
    b == "" || !Joins(LastToken(a), b[0])
  }

  // ----- Counted nesting -----------------------------------------------------------------

  /** What follows a comment opener, by the depth counter the code keeps. */
  function DepthSpan(s: string, depth: nat): (r: Span)
    requires depth > 0
    ensures r.len <= |s|
    ensures !r.closed ==> r.len == |s|
    decreases |s|
  {
    if s == "" then Span(0, false)
    else if StartsPair(s, '/', '*') then DepthSpan(s[2..], depth + 1).After(2)
    else if StartsPair(s, '*', '/') then
      if depth == 1 then Span(2, true) else DepthSpan(s[2..], depth - 1).After(2)
    else DepthSpan(s[1..], depth).After(1)
  }

  lemma CommentUnfold(s: string)
    ensures CommentSpan(s) ==
            if s == "" then Span(0, false)
            else if StartsPair(s, '*', '/') then Span(2, true)
            else if StartsPair(s, '/', '*') then
              var inner := CommentSpan(s[2..]).After(2);
              CommentSpan(s[inner.len..]).After(inner.len)
            else CommentSpan(s[1..]).After(1)
  {
  }

  lemma DepthUnfold(s: string, depth: nat)
    requires depth > 0
    ensures DepthSpan(s, depth) ==
            if s == "" then Span(0, false)
            else if StartsPair(s, '/', '*') then DepthSpan(s[2..], depth + 1).After(2)
            else if StartsPair(s, '*', '/') then
              if depth == 1 then Span(2, true) else DepthSpan(s[2..], depth - 1).After(2)
            else DepthSpan(s[1..], depth).After(1)
  {
  }

  /** The counter refines nesting: leaving `depth` levels is leaving the innermost comment and
      then the remaining levels. */
  lemma {:induction false} DepthIsNesting(s: string, depth: nat)
    requires depth > 0
    ensures var c := CommentSpan(s);
            DepthSpan(s, depth) ==
            (if depth == 1 then c else DepthSpan(s[c.len..], depth - 1).After(c.len))
    decreases |s|
  {
    hide CommentSpan, DepthSpan;
    CommentUnfold(s);
    DepthUnfold(s, depth);
    if s == "" {
      DepthUnfold("", if depth == 1 then 1 else depth - 1);
    } else if StartsPair(s, '*', '/') {
    } else if StartsPair(s, '/', '*') {
      DepthIsNesting(s[2..], depth + 1);
      var inner := CommentSpan(s[2..]);
      DropDrop(s, 2, inner.len);
      DepthIsNesting(s[2 + inner.len..], depth);
      var outer := CommentSpan(s[2 + inner.len..]);
      DropDrop(s, 2 + inner.len, outer.len);
    } else {
      DepthIsNesting(s[1..], depth);
      DropDrop(s, 1, CommentSpan(s[1..]).len);
    }
  }

  // ----- The loop ------------------------------------------------------------------------

  /** What remains of the token the lexer is in; in the normal state, nothing. */
  function OpenSpan(s: string, state: State, depth: nat): (r: Span)
    requires state == BlockComment ==> depth > 0
    ensures r.len <= |s|
  {
    match state
    case Normal => Span(0, true)
    case SingleQuote => QuotedSpan(s, '\'')
    case DoubleQuote => QuotedSpan(s, '"')
    case Bracket => QuotedSpan(s, ']')
    case LineComment => LineSpan(s)
    case BlockComment => DepthSpan(s, depth)
  }

  /** The surface of `s` when the lexer enters it in `state`. */
  function Resume(s: string, state: State, depth: nat): string
    requires state == BlockComment ==> depth > 0
  {
    var n := OpenSpan(s, state, depth).len;
    BlankIf(state != Bracket, s[..n]) + Surface(s[n..])
  }

  /** Whether the lexer, entering `s` in `state`, leaves it in the normal state. */
  predicate ResumeEndsNormal(s: string, state: State, depth: nat)
    requires state == BlockComment ==> depth > 0
  {
    var open := OpenSpan(s, state, depth);
    open.closed && EndsNormal(s[open.len..])
  }

  lemma SurfaceEmpty()
    ensures Surface("") == ""
  {
  }

  lemma SurfaceUnfold(s: string)
    requires s != ""
    ensures var n := TokenSpan(s).len; Surface(s) == BlankIf(Hidden(s), s[..n]) + Surface(s[n..])
    ensures EndsNormal(s) == (TokenSpan(s).closed && EndsNormal(s[TokenSpan(s).len..]))
  {
  }

  /** The token a turn of the loop works on: the open one, or in the normal state a new one. */
  function PendingSpan(s: string, state: State, depth: nat): (r: Span)
    requires s != "" && (state == BlockComment ==> depth > 0)
    ensures r.len <= |s|
  {
    if state == Normal then TokenSpan(s) else OpenSpan(s, state, depth)
  }

  /** A turn of the loop: how many characters it consumes and what is open afterwards. */
  datatype Step = Step(n: nat, state: State, depth: nat)

  /** The character after the current one, or nothing at the end of the text. */
  function Following(s: string): string {
    if |s| > 1 then s[1..2] else ""
  }

  function NextStep(current: char, following: string, state: State, depth: nat): (r: Step)
    requires state == BlockComment ==> depth > 0
    ensures r.n == 1 || (r.n == 2 && following != "")
    ensures r.state == BlockComment ==> r.depth > 0
  {
    match state
    case Normal =>
      if current == '\'' then Step(1, SingleQuote, depth)
      else if current == '"' then Step(1, DoubleQuote, depth)
      else if current == '[' then Step(1, Bracket, depth)
      else if current == '-' && following == "-" then Step(2, LineComment, depth)
      else if current == '/' && following == "*" then Step(2, BlockComment, 1)
      else Step(1, Normal, depth)
    case SingleQuote => QuoteStep(current, following, '\'', state, depth)
    case DoubleQuote => QuoteStep(current, following, '"', state, depth)
    case Bracket => QuoteStep(current, following, ']', state, depth)
    case LineComment => Step(1, if current == '\n' then Normal else state, depth)
    case BlockComment =>
      if current == '/' && following == "*" then Step(2, state, depth + 1)
      else if current == '*' && following == "/" then
        Step(2, if depth == 1 then Normal else state, depth - 1)
      else Step(1, state, depth)
  }

  function QuoteStep(current: char, following: string, quote: char, state: State, depth: nat): Step {
    if current == quote && following == [quote] then Step(2, state, depth)
    else Step(1, if current == quote then Normal else state, depth)
  }

  /** What a step outputs: hidden text leaves blanks, everything else is copied. */
  function StepOutput(current: char, following: string, state: State, n: nat): string {
    var consumed := if n == 1 then [current] else [current] + following;
    BlankIf(StepHides(current, following, state), consumed)
  }

  predicate StepHides(current: char, following: string, state: State) {
    && state != Bracket
    && (state == Normal ==> current == '\'' || current == '"' || (current == '-' && following == "-")
                            || (current == '/' && following == "*"))
  }

  lemma FollowingIs(s: string)
    requires s != ""
    ensures forall first, second ::
      StartsPair(s, first, second) <==> s[0] == first && Following(s) == [second]
    ensures |Following(s)| <= 1
    ensures Following(s) != "" ==> |s| > 1
    ensures Hidden(s) <==> StepHides(s[0], Following(s), Normal)
  {
  }

  /** What a step leaves open is what remains of the pending token. */
  lemma StepSpan(s: string, state: State, depth: nat)
    requires s != "" && (state == BlockComment ==> depth > 0)
    ensures var t := NextStep(s[0], Following(s), state, depth);
            t.n <= |s| && PendingSpan(s, state, depth) == OpenSpan(s[t.n..], t.state, t.depth).After(t.n)
  {
    FollowingIs(s);
    if state == Normal && StartsPair(s, '/', '*') {
      DepthIsNesting(s[2..], 1);
    }
  }

  lemma ResumePending(s: string, state: State, depth: nat)
    requires s != "" && (state == BlockComment ==> depth > 0)
    ensures var open := PendingSpan(s, state, depth);
            && Resume(s, state, depth) ==
               BlankIf(StepHides(s[0], Following(s), state), s[..open.len]) + Surface(s[open.len..])
            && ResumeEndsNormal(s, state, depth) == (open.closed && EndsNormal(s[open.len..]))
  {
  }

  /** A step outputs its share of the surface and leaves the rest of the text to the next one. */
  lemma StepKeepsSurface(s: string, state: State, depth: nat)
    requires s != "" && (state == BlockComment ==> depth > 0)
    ensures var t := NextStep(s[0], Following(s), state, depth);
            && t.n <= |s|
            && Resume(s, state, depth) ==
               StepOutput(s[0], Following(s), state, t.n) + Resume(s[t.n..], t.state, t.depth)
            && ResumeEndsNormal(s, state, depth) == ResumeEndsNormal(s[t.n..], t.state, t.depth)
  {
    hide *;
    StepSpan(s, state, depth);
    StepShape(s, state, depth);
    ResumePending(s, state, depth);
    var t := NextStep(s[0], Following(s), state, depth);
    var open := OpenSpan(s[t.n..], t.state, t.depth);
    ResumeOpen(s[t.n..], t.state, t.depth);
    OutputSplit(s, state, t.state, t.n, open.len);
    DropDrop(s, t.n, open.len);
    assert open.After(t.n) == Span(t.n + open.len, open.closed) by {
      AfterIs(open, t.n);
    }
    Associate(StepOutput(s[0], Following(s), state, t.n), BlankIf(t.state != Bracket, s[t.n..][..open.len]),
              Surface(s[t.n + open.len..]));
  }

  lemma AfterIs(span: Span, n: nat)
    ensures span.After(n) == Span(n + span.len, span.closed)
  {
  }

  lemma ResumeOpen(s: string, state: State, depth: nat)
    requires state == BlockComment ==> depth > 0
    ensures var open := OpenSpan(s, state, depth);
            && Resume(s, state, depth) == BlankIf(state != Bracket, s[..open.len]) + Surface(s[open.len..])
            && ResumeEndsNormal(s, state, depth) == (open.closed && EndsNormal(s[open.len..]))
  {
  }

  lemma StepShape(s: string, state: State, depth: nat)
    requires s != "" && (state == BlockComment ==> depth > 0)
    ensures var t := NextStep(s[0], Following(s), state, depth);
            && t.n <= |s|
            && (t.state == Normal ==> OpenSpan(s[t.n..], t.state, t.depth) == Span(0, true))
            && (t.state != Normal ==> (t.state != Bracket <==> StepHides(s[0], Following(s), state)))
  {
  }

  lemma OutputSplit(s: string, state: State, state': State, n: nat, m: nat)
    requires 1 <= n <= 2 && n + m <= |s|
    requires state' == Normal ==> m == 0
    requires state' != Normal ==> (state' != Bracket <==> StepHides(s[0], Following(s), state))
    ensures BlankIf(StepHides(s[0], Following(s), state), s[..n + m]) ==
            StepOutput(s[0], Following(s), state, n) + BlankIf(state' != Bracket, s[n..][..m])
  {
    hide StepHides, Blank;
    BlankSplit(StepHides(s[0], Following(s), state), s, n, m);
    assert s[..n] == if n == 1 then [s[0]] else [s[0]] + Following(s);
  }

  lemma BlankSplit(hidden: bool, s: string, n: nat, m: nat)
    requires n + m <= |s|
    ensures BlankIf(hidden, s[..n + m]) == BlankIf(hidden, s[..n]) + BlankIf(hidden, s[n..][..m])
  {
  }

  /** The loop's invariant: what is output so far, followed by what remains, is the surface. */
  predicate Lexing(content: string, index: nat, state: State, depth: nat, surface: string) {
    && index <= |content|
    && (state == BlockComment ==> depth > 0)
    && surface + Resume(content[index..], state, depth) == Surface(content)
    && ResumeEndsNormal(content[index..], state, depth) == EndsNormal(content)
  }

  lemma LexingStep(content: string, index: nat, state: State, depth: nat, surface: string,
                   index': nat, state': State, depth': nat, surface': string)
    requires Lexing(content, index, state, depth, surface) && index < index' <= |content|
    requires var rest := content[index..];
             && NextStep(rest[0], Following(rest), state, depth) == Step(index' - index, state', depth')
             && surface' == surface + StepOutput(rest[0], Following(rest), state, index' - index)
    ensures Lexing(content, index', state', depth', surface')
  {
    hide NextStep, Surface, EndsNormal, Resume, ResumeEndsNormal, StepOutput, Following;
    StepKeepsSurface(content[index..], state, depth);
    DropDrop(content, index, index' - index);
    Associate(surface, StepOutput(content[index], Following(content[index..]), state, index' - index),
              Resume(content[index'..], state', depth'));
  }

  lemma LexingStarts(content: string)
    ensures Lexing(content, 0, Normal, 0, "")
  {
  }

  lemma LexingDone(content: string, state: State, depth: nat, surface: string)
    requires Lexing(content, |content|, state, depth, surface)
    ensures surface == Surface(content) && (EndsNormal(content) <==> state == Normal)
  {
  }

  /** The lexer loop. `state` is the state it ends in. */
  method DeclarationSurface(content: string) returns (surface: string, ghost ends: State)
    ensures surface == Surface(content)
    ensures ends == Normal <==> EndsNormal(content)
  {
    hide Lexing, Surface, EndsNormal;
    LexingStarts(content);
    var index, state, blockDepth: nat := 0, Normal, 0;
    surface := "";
    while index < |content|
      invariant index <= |content|
      invariant state == BlockComment ==> blockDepth > 0
      invariant Lexing(content, index, state, blockDepth, surface)
    {
      var current := content[index];
      var following := if index + 1 < |content| then content[index + 1..index + 2] else "";
      ghost var index0, state0, depth0 := index, state, blockDepth;
      ghost var surface0 := surface;
      assert Following(content[index..]) == following;
      if state == Normal {
        if current == '\'' {
          state := SingleQuote;
          surface := surface + " ";
        } else if current == '"' {
          state := DoubleQuote;
          surface := surface + " ";
        } else if current == '[' {
          state := Bracket;
          surface := surface + [current];
        } else if current == '-' && following == "-" {
          state := LineComment;
          surface := surface + "  ";
          index := index + 1;
        } else if current == '/' && following == "*" {
          state := BlockComment;
          blockDepth := 1;
          surface := surface + "  ";
          index := index + 1;
        } else {
          surface := surface + [current];
        }
      } else if state == SingleQuote {
        surface := surface + (if current == '\n' then "\n" else " ");
        if current == '\'' && following == "'" {
          surface := surface + " ";
          index := index + 1;
        } else if current == '\'' {
          state := Normal;
        }
      } else if state == DoubleQuote {
        surface := surface + (if current == '\n' then "\n" else " ");
        if current == '"' && following == "\"" {
          surface := surface + " ";
          index := index + 1;
        } else if current == '"' {
          state := Normal;
        }
      } else if state == Bracket {
        surface := surface + [current];
        if current == ']' && following == "]" {
          surface := surface + following;
          index := index + 1;
        } else if current == ']' {
          state := Normal;
        }
      } else if state == LineComment {
        surface := surface + (if current == '\n' then "\n" else " ");
        if current == '\n' {
          state := Normal;
        }
      } else {
        surface := surface + (if current == '\n' then "\n" else " ");
        if current == '/' && following == "*" {
          surface := surface + " ";
          blockDepth := blockDepth + 1;
          index := index + 1;
        } else if current == '*' && following == "/" {
          surface := surface + " ";
          blockDepth := blockDepth - 1;
          index := index + 1;
          if blockDepth == 0 {
            state := Normal;
          }
        }
      }
      index := index + 1;
      LexingStep(content, index0, state0, depth0, surface0, index, state, blockDepth, surface);
    }
    ends := state;
    LexingDone(content, state, blockDepth, surface);
  }

}
