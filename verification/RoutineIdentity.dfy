/** Normalisation keeps what a routine declares, and doing it twice changes nothing. */
module RoutineIdentity {
  import opened Text
  import opened DeclarationLexer
  import opened SurfaceLaws
  import opened Declarations
  import opened RoutineNormalization

  // ----- Leading trivia is lexed on its own ----------------------------------------------

  predicate AllSpace(s: string) {
    forall i :: 0 <= i < |s| ==> IsSpace(s[i])
  }

  lemma LetterNeverJoins(token: string, c: char)
    requires IsLetter(c)
    ensures !Joins(token, c)
  {
  }

  /** Before a letter, the skipper stops where the lexer is back in its normal state, and the
      text it skipped has a blank surface. */
  lemma {:induction false} TriviaIsLexed(s: string, y: string)
    requires var n := LeadingTrivia(s);
             n < |s| && SamePrefix(s, y, n) && (n < |y| ==> IsLetter(y[n]))
    ensures EndsNormal(y[..LeadingTrivia(s)])
    ensures AllSpace(Surface(y[..LeadingTrivia(s)]))
    ensures LeadingTrivia(s) < |y| ==> LeadingTrivia(y) == LeadingTrivia(s)
    decreases |s|
  {
    hide LeadingTrivia, TokenSpan, Joins, Surface;
    TriviaUnfold(s);
    var n := LeadingTrivia(s);
    var p := y[..n];
    if n == 0 {
      SurfaceEmpty();
      assert p == "";
      if y != "" {
        LetterIsNoTrivia(y);
      }
    } else if IsSpace(s[0]) {
      TriviaUnfold(y);
      TriviaIsLexed(s[1..], y[1..]);
      assert p == [y[0]] + y[1..][..n - 1];
      PlainPrefix([y[0]], y[1..][..n - 1]);
    } else {
      var m := TokenSpan(s).len;
      TokenNotFollowed(s);
      if n < |y| {
        LetterNeverJoins(s[..m], y[n]);
      }
      TokenAgree(s, y);
      TokenAgree(s, p);
      TriviaUnfold(y);
      CommentHidden(s);
      TriviaIsLexed(s[m..], y[m..]);
      SurfaceUnfold(p);
      assert p[m..] == y[m..][..n - m];
    }
  }

  lemma LetterIsNoTrivia(s: string)
    requires s != "" && IsLetter(s[0])
    ensures LeadingTrivia(s) == 0
  {
  }

  lemma CommentHidden(s: string)
    requires StartsPair(s, '-', '-') || StartsPair(s, '/', '*')
    ensures Hidden(s) && TokenSpan(s).len >= 2
    ensures !IsSpace(s[0])
  {
  }

  // ----- The pieces of a leading declaration ---------------------------------------------

  predicate Word(s: string, keyword: string) {
    |s| == |keyword| && KeywordAt(s, keyword)
  }

  predicate Gap(s: string) {
    s != "" && AllSpace(s)
  }

  /** A verb, as the pattern's first alternative group reads it. */
  datatype Verb = Single(word: string) | CreateOrAlter(create: string, gap1: string, or: string, gap2: string,
                         alter: string) {
    predicate Valid() {
      match this
      case Single(word) => Word(word, "CREATE") || Word(word, "ALTER")
      case CreateOrAlter(create, gap1, or, gap2, alter) =>
        Word(create, "CREATE") && Gap(gap1) && Word(or, "OR") && Gap(gap2) && Word(alter, "ALTER")
    }

    function Text(): string {
      match this
      case Single(word) => word
      case CreateOrAlter(create, gap1, or, gap2, alter) => create + (gap1 + (or + (gap2 + alter)))
    }
  }

  predicate IsNoun(noun: string, routine: ObjectType) {
    if routine == Procedure then Word(noun, "PROCEDURE") || Word(noun, "PROC") else Word(noun, "FUNCTION")
  }

  lemma NounsAre(noun: string, routine: ObjectType)
    ensures IsNoun(noun, routine) <==> exists k :: 0 <= k < |Nouns(routine)| && Word(noun, Nouns(routine)[k])
  {
    hide Word;
    if IsNoun(noun, routine) {
      var k := if routine == Procedure && !Word(noun, "PROCEDURE") then 1 else 0;
      assert Word(noun, Nouns(routine)[k]);
    }
  }

  lemma {:induction false} SpaceRunIs(s: string)
    ensures AllSpace(s[..SpaceRun(s)])
    ensures SpaceRun(s) < |s| ==> !IsSpace(s[SpaceRun(s)])
  {
    if s != "" && IsSpace(s[0]) {
      SpaceRunIs(s[1..]);
      var n := SpaceRun(s[1..]);
      assert s[..1 + n] == [s[0]] + s[1..][..n];
    }
  }

  lemma {:induction false} SpaceRunOf(gap: string, x: string)
    requires AllSpace(gap) && (x == "" || !IsSpace(x[0]))
    ensures SpaceRun(gap + x) == |gap|
  {
    if gap == "" {
      assert gap + x == x;
    } else {
      assert (gap + x)[1..] == gap[1..] + x;
      SpaceRunOf(gap[1..], x);
    }
  }

  lemma {:induction false} NounEndIs(s: string, nouns: seq<string>)
    requires NounEnd(s, nouns).Some?
    ensures var n := NounEnd(s, nouns).value;
            && AtWordEnd(s[n..])
            && exists k :: 0 <= k < |nouns| && Word(s[..n], nouns[k])
  {
    if KeywordAt(s, nouns[0]) && AtWordEnd(s[|nouns[0]|..]) {
      assert Word(s[..|nouns[0]|], nouns[0]);
    } else {
      NounEndIs(s, nouns[1..]);
      var k :| 0 <= k < |nouns[1..]| && Word(s[..NounEnd(s, nouns).value], nouns[1..][k]);
      assert nouns[1..][k] == nouns[k + 1];
    }
  }

  lemma VerbNounShape(s: string, verb: nat, routine: ObjectType) returns (gap: string, noun: string)
    requires verb <= |s| && VerbNounEnd(s, verb, routine).Some?
    ensures var n := VerbNounEnd(s, verb, routine).value;
            && Gap(gap) && IsNoun(noun, routine) && s[verb..n] == gap + noun && AtWordEnd(s[n..])
            && verb <= n
  {
    hide NounEnd, SpaceRun, Nouns, IsNoun;
    var a := SpaceRun(s[verb..]);
    SpaceRunIs(s[verb..]);
    var rest := s[verb + a..];
    NounEndIs(rest, Nouns(routine));
    var b := NounEnd(rest, Nouns(routine)).value;
    gap, noun := s[verb..][..a], rest[..b];
    assert s[verb..verb + a + b] == gap + noun;
    DropDrop(s, verb + a, b);
    NounsAre(noun, routine);
  }

  lemma KeywordIsWord(s: string, at: nat, keyword: string)
    requires at <= |s| && KeywordAt(s[at..], keyword)
    ensures Word(s[at..at + |keyword|], keyword)
  {
  }

  lemma GapKeywordShape(s: string, at: nat, keyword: string) returns (gap: string, word: string)
    requires at <= |s| && GapKeywordEnd(s[at..], keyword).Some?
    ensures Gap(gap) && Word(word, keyword)
    ensures s[at..at + GapKeywordEnd(s[at..], keyword).value] == gap + word
  {
    hide SpaceRun, KeywordAt;
    var n := SpaceRun(s[at..]);
    SpaceRunIs(s[at..]);
    DropDrop(s, at, n);
    KeywordIsWord(s, at + n, keyword);
    gap, word := s[at..][..n], s[at + n..at + n + |keyword|];
  }

  lemma CreateOrAlterShape(s: string) returns (verb: Verb)
    requires CreateOrAlterEnd(s).Some?
    ensures verb.CreateOrAlter? && verb.Valid() && verb.Text() == s[..CreateOrAlterEnd(s).value]
  {
    hide GapKeywordEnd, KeywordAt, Gap, Word;
    KeywordIsWord(s, 0, "CREATE");
    var m := GapKeywordEnd(s[6..], "OR").value;
    var gap1, or := GapKeywordShape(s, 6, "OR");
    var n := GapKeywordEnd(s[6 + m..], "ALTER").value;
    var gap2, alter := GapKeywordShape(s, 6 + m, "ALTER");
    verb := CreateOrAlter(s[..6], gap1, or, gap2, alter);
    Associate(gap1, or, gap2 + alter);
    assert s[..6 + m + n] == s[..6] + (s[6..6 + m] + s[6 + m..6 + m + n]);
  }

  /** A leading declaration is a verb, a gap and a noun that ends a word. */
  lemma RoutineShape(s: string, routine: ObjectType) returns (verb: Verb, gap: string, noun: string)
    requires RoutineEnd(s, routine).Some?
    ensures verb.Valid() && Gap(gap) && IsNoun(noun, routine)
    ensures var n := RoutineEnd(s, routine).value;
            s[..n] == verb.Text() + (gap + noun) && AtWordEnd(s[n..])
  {
    hide CreateOrAlterEnd, VerbNounEnd, IsNoun, Gap;
    var n := RoutineEnd(s, routine).value;
    var full := CreateOrAlterEnd(s);
    var v: nat;
    if full.Some? && VerbNounEnd(s, full.value, routine).Some? {
      v := full.value;
      verb := CreateOrAlterShape(s);
    } else if KeywordAt(s, "CREATE") && VerbNounEnd(s, 6, routine).Some? {
      v := 6;
      verb := Single(s[..6]);
    } else {
      v := 5;
      verb := Single(s[..5]);
    }
    gap, noun := VerbNounShape(s, v, routine);
    assert s[..n] == s[..v] + s[v..n];
  }

  // ----- The declaration pattern on those pieces -----------------------------------------

  function Shifted(names: Option<Names>, n: nat, routine: ObjectType): Option<Declared> {
    match names
    case None => None
    case Some(m) => Some(Declared(routine, NamesAfter(m, n)))
  }

  lemma GapIs(gap: string, x: string)
    requires Gap(gap) && x != "" && IsLetter(x[0])
    ensures SpaceRun(gap + x) == |gap| && (gap + x)[|gap|..] == x
  {
    SpaceRunOf(gap, x);
  }

  lemma VerbTailOf(verb: string, gap: string, x: string)
    requires Gap(gap) && x != "" && IsLetter(x[0])
    ensures VerbTail(verb + (gap + x), |verb|) ==
            match KindTail(x)
            case None => None
            case Some(d) => Some(d.(names := NamesAfter(d.names, |verb| + |gap|)))
  {
    hide SpaceRun, KindTail;
    var s := verb + (gap + x);
    assert s[|verb|..] == gap + x;
    GapIs(gap, x);
    DropDrop(s, |verb|, |gap|);
  }

  lemma NoKeyword(s: string, keyword: string)
    requires s != "" && keyword != "" && UpperChar(s[0]) != keyword[0]
    ensures !KeywordAt(s, keyword)
  {
  }

  lemma NoKind(s: string)
    requires s != "" && UpperChar(s[0]) != 'T' && UpperChar(s[0]) != 'P' && UpperChar(s[0]) != 'F'
    ensures KindTail(s) == None
  {
  }

  lemma WordThen(word: string, x: string, keyword: string)
    requires Word(word, keyword)
    ensures KeywordAt(word + x, keyword) && (word + x)[|word|..] == x
  {
  }

  lemma NounStarts(noun: string, routine: ObjectType, k: nat)
    requires routine != Table && k < |Nouns(routine)| && Word(noun, Nouns(routine)[k])
    ensures noun != "" && IsLetter(noun[0])
    ensures UpperChar(noun[0]) == (if routine == Procedure then 'P' else 'F')
    ensures |noun| == |Nouns(routine)[k]|
  {
  }

  lemma KindOf(noun: string, rest: string, routine: ObjectType)
    requires routine != Table && IsNoun(noun, routine) && AtWordEnd(rest)
    ensures noun != "" && IsLetter(noun[0])
    ensures UpperChar(noun[0]) == 'P' || UpperChar(noun[0]) == 'F'
    ensures KindTail(noun + rest) == Shifted(NameTail(rest), |noun|, routine)
  {
    hide NameTail, IsLetter, UpperChar, Word, KindTail, IsNoun;
    NounsAre(noun, routine);
    var k :| 0 <= k < |Nouns(routine)| && Word(noun, Nouns(routine)[k]);
    NounStarts(noun, routine, k);
    WordThen(noun, rest, Nouns(routine)[k]);
    if routine == Function {
      FunctionTail(noun, rest);
    } else {
      ProcedureTail(noun, rest, k);
    }
  }

  lemma FunctionTail(noun: string, rest: string)
    requires noun != "" && UpperChar(noun[0]) == 'F' && AtWordEnd(rest)
    requires KeywordAt(noun + rest, "FUNCTION") && (noun + rest)[|noun|..] == rest && |noun| == 8
    ensures KindTail(noun + rest) == Shifted(NameTail(rest), |noun|, Function)
  {
    hide NameTail;
    NoKeyword(noun + rest, "TABLE");
    NoKeyword(noun + rest, "PROCEDURE");
    NoKeyword(noun + rest, "PROC");
  }

  lemma ProcedureTail(noun: string, rest: string, k: nat)
    requires k < |Nouns(Procedure)| && Word(noun, Nouns(Procedure)[k])
    requires noun != "" && UpperChar(noun[0]) == 'P' && AtWordEnd(rest)
    requires KeywordAt(noun + rest, Nouns(Procedure)[k]) && (noun + rest)[|noun|..] == rest
    ensures KindTail(noun + rest) == Shifted(NameTail(rest), |noun|, Procedure)
  {
    hide NameTail;
    var s := noun + rest;
    NoKeyword(s, "TABLE");
    NoKeyword(s, "FUNCTION");
    if k == 0 {
      NoNamesInWord(s[4..]);
    } else {
      assert !KeywordAt(s, "PROCEDURE");
    }
  }

  lemma NoNamesInWord(s: string)
    requires s != "" && IsWordChar(s[0])
    ensures NameTail(s) == None
  {
  }

  lemma WordStarts(word: string, x: string, keyword: string)
    requires Word(word, keyword) && keyword != "" && IsLetter(keyword[0])
    ensures IsLetter((word + x)[0]) && UpperChar((word + x)[0]) == keyword[0]
  {
  }

  lemma FullText(verb: Verb, x: string)
    requires verb.CreateOrAlter?
    ensures verb.Text() + x ==
            verb.create + (verb.gap1 + (verb.or + (verb.gap2 + (verb.alter + x))))
  {
  }

  lemma FullVerb(verb: Verb, x: string)
    requires verb.CreateOrAlter? && verb.Valid()
    ensures var s := verb.Text() + x;
            && CreateOrAlterEnd(s) == Some(|verb.Text()|)
            && KeywordAt(s, "CREATE") && VerbTail(s, 6) == None
            && UpperChar(s[0]) == 'C'
  {
    hide VerbTail, KindTail, SpaceRun, Gap, KeywordAt, Word, Verb.Text, CreateOrAlterEnd;
    WordParts(verb, x);
    FullText(verb, x);
    var s3 := verb.alter + x;
    var s2 := verb.or + (verb.gap2 + s3);
    WordThen(verb.create, verb.gap1 + s2, "CREATE");
    FullEnd(verb.create, verb.gap1, verb.or, verb.gap2, verb.alter, x);
    VerbTailOf(verb.create, verb.gap1, s2);
    NoKind(s2);
  }

  lemma WordParts(verb: Verb, x: string)
    requires verb.CreateOrAlter? && verb.Valid()
    ensures Word(verb.create, "CREATE") && Word(verb.or, "OR") && Word(verb.alter, "ALTER")
    ensures Gap(verb.gap1) && Gap(verb.gap2) && |verb.create| == 6
    ensures |verb.Text()| == 13 + |verb.gap1| + |verb.gap2|
    ensures UpperChar((verb.Text() + x)[0]) == 'C'
    ensures var s2 := verb.or + (verb.gap2 + (verb.alter + x)); IsLetter(s2[0]) && UpperChar(s2[0]) == 'O'
  {
  }

  lemma GapKeywordOf(gap: string, word: string, x: string, keyword: string)
    requires Gap(gap) && Word(word, keyword) && keyword != "" && IsLetter(keyword[0])
    ensures GapKeywordEnd(gap + (word + x), keyword) == Some(|gap| + |keyword|)
    ensures (gap + (word + x))[|gap| + |keyword|..] == x
  {
    hide SpaceRun, KeywordAt;
    WordStarts(word, x, keyword);
    GapIs(gap, word + x);
    WordThen(word, x, keyword);
    DropDrop(gap + (word + x), |gap|, |keyword|);
  }

  lemma FullEnd(create: string, gap1: string, or: string, gap2: string, alter: string, x: string)
    requires Word(create, "CREATE") && Gap(gap1) && Word(or, "OR") && Gap(gap2) && Word(alter, "ALTER")
    ensures CreateOrAlterEnd(create + (gap1 + (or + (gap2 + (alter + x))))) == Some(13 + |gap1| + |gap2|)
  {
    hide KeywordAt, Gap, GapKeywordEnd, Word;
    var s1 := gap1 + (or + (gap2 + (alter + x)));
    var s := create + s1;
    WordThen(create, s1, "CREATE");
    WordSize(create, "CREATE");
    GapKeywordOf(gap1, or, gap2 + (alter + x), "OR");
    DropDrop(s, 6, |gap1| + 2);
    GapKeywordOf(gap2, alter, x, "ALTER");
  }

  lemma WordSize(word: string, keyword: string)
    requires Word(word, keyword)
    ensures |word| == |keyword|
  {
  }

  lemma SingleVerb(word: string, gap: string, x: string)
    requires Gap(gap) && x != "" && IsLetter(x[0]) && UpperChar(x[0]) != 'O'
    requires Word(word, "CREATE") || Word(word, "ALTER")
    ensures MatchDeclaration(word + (gap + x)) == VerbTail(word + (gap + x), |word|)
  {
    hide VerbTail, SpaceRun, Gap, KeywordAt;
    var s := word + (gap + x);
    if Word(word, "CREATE") {
      WordThen(word, gap + x, "CREATE");
      WordStarts(word, gap + x, "CREATE");
      NoKeyword(s, "ALTER");
      GapIs(gap, x);
      NoKeyword(x, "OR");
      assert s[6..] == gap + x;
      DropDrop(s, 6, |gap|);
      assert CreateOrAlterEnd(s) == None;
    } else {
      WordThen(word, gap + x, "ALTER");
      WordStarts(word, gap + x, "ALTER");
      NoKeyword(s, "CREATE");
      assert CreateOrAlterEnd(s) == None;
    }
  }

  /** The pattern matches a leading declaration exactly when names follow it. */
  lemma MatchOf(verb: Verb, gap: string, noun: string, rest: string, routine: ObjectType)
    requires routine != Table && verb.Valid() && Gap(gap) && IsNoun(noun, routine) && AtWordEnd(rest)
    ensures MatchDeclaration(verb.Text() + (gap + (noun + rest))) ==
            Shifted(NameTail(rest), |verb.Text()| + |gap| + |noun|, routine)
  {
    hide NameTail, KindTail, VerbTail, IsNoun, Gap, KeywordAt, CreateOrAlterEnd;
    KindOf(noun, rest, routine);
    var x := noun + rest;
    VerbTailOf(verb.Text(), gap, x);
    match verb
    case Single(word) =>
      SingleVerb(word, gap, x);
    case CreateOrAlter(create, gap1, or, gap2, alter) =>
      FullVerb(verb, gap + x);
      NoKeyword(verb.Text() + (gap + x), "ALTER");
  }

  // ----- Searching past a leading declaration --------------------------------------------

  lemma FindUnfold(s: string, afterWord: bool)
    requires s != ""
    ensures FindDeclarations(s, afterWord) ==
            if !afterWord && MatchDeclaration(s).Some? then
              var d := MatchDeclaration(s).value;
              [IdentityOf(d)] + FindDeclarations(s[d.names.len..], IsWordChar(s[d.names.len - 1]))
            else FindDeclarations(s[1..], IsWordChar(s[0]))
  {
  }

  lemma NoMatch(s: string)
    requires s != "" && UpperChar(s[0]) != 'C' && UpperChar(s[0]) != 'A'
    ensures MatchDeclaration(s) == None
  {
  }

  /** Inside a word no match starts. */
  lemma {:induction false} SkipWord(w: string, x: string)
    requires All(w, IsWordChar)
    ensures FindDeclarations(w + x, true) == FindDeclarations(x, true)
  {
    hide FindDeclarations, MatchDeclaration;
    if w == "" {
      assert w + x == x;
    } else {
      FindUnfold(w + x, true);
      assert (w + x)[1..] == w[1..] + x;
      SkipWord(w[1..], x);
    }
  }

  lemma SkipFirstWord(w: string, x: string)
    requires w != "" && All(w, IsWordChar) && MatchDeclaration(w + x) == None
    ensures FindDeclarations(w + x, false) == FindDeclarations(x, true)
  {
    hide FindDeclarations, MatchDeclaration;
    FindUnfold(w + x, false);
    assert (w + x)[1..] == w[1..] + x;
    SkipWord(w[1..], x);
  }

  /** Outside words no match starts. */
  lemma {:induction false} SkipNonWord(p: string, x: string, afterWord: bool)
    requires forall i :: 0 <= i < |p| ==> !IsWordChar(p[i])
    requires p == "" ==> !afterWord
    ensures FindDeclarations(p + x, afterWord) == FindDeclarations(x, false)
  {
    hide FindDeclarations, MatchDeclaration;
    if p == "" {
      assert p + x == x;
    } else {
      FindUnfold(p + x, afterWord);
      NoMatch(p + x);
      assert (p + x)[1..] == p[1..] + x;
      SkipNonWord(p[1..], x, false);
    }
  }

  lemma WordIsWord(word: string, keyword: string)
    requires Word(word, keyword)
    requires forall i :: 0 <= i < |keyword| ==> IsLetter(keyword[i])
    ensures All(word, IsWordChar)
  {
  }

  lemma SkipGap(gap: string, x: string)
    requires Gap(gap)
    ensures FindDeclarations(gap + x, true) == FindDeclarations(x, false)
  {
    SkipNonWord(gap, x, true);
  }

  lemma NounIsWord(noun: string, routine: ObjectType)
    requires routine != Table && IsNoun(noun, routine)
    ensures noun != "" && All(noun, IsWordChar)
  {
  }

  lemma SkipSingle(word: string, gap: string, noun: string, rest: string, routine: ObjectType)
    requires Word(word, "CREATE") || Word(word, "ALTER")
    requires routine != Table && Gap(gap) && IsNoun(noun, routine) && AtWordEnd(rest) && NameTail(rest) == None
    ensures FindDeclarations(word + (gap + (noun + rest)), false) == FindDeclarations(rest, true)
  {
    hide FindDeclarations, MatchDeclaration, NameTail, IsNoun, Gap, KindTail;
    MatchOf(Single(word), gap, noun, rest, routine);
    WordIsWord(word, if Word(word, "CREATE") then "CREATE" else "ALTER");
    SkipFirstWord(word, gap + (noun + rest));
    SkipGap(gap, noun + rest);
    KindOf(noun, rest, routine);
    NounIsWord(noun, routine);
    NoMatch(noun + rest);
    SkipFirstWord(noun, rest);
  }

  /** What the search finds from a leading declaration on depends only on what follows it. */
  function FoundAfter(rest: string, routine: ObjectType): seq<Identity> {
    match NameTail(rest)
    case None => FindDeclarations(rest, true)
    case Some(names) =>
      [IdentityOf(Declared(routine, names))] +
      FindDeclarations(rest[names.len..], IsWordChar(rest[names.len - 1]))
  }

  lemma FoundMatch(head: string, rest: string, routine: ObjectType)
    requires head != "" && NameTail(rest).Some?
    requires MatchDeclaration(head + rest) == Shifted(NameTail(rest), |head|, routine)
    ensures FindDeclarations(head + rest, false) == FoundAfter(rest, routine)
  {
    hide FindDeclarations, MatchDeclaration, NameTail;
    var s := head + rest;
    FindUnfold(s, false);
    var n, m := |head|, NameTail(rest).value.len;
    assert s[n..] == rest;
    DropDrop(s, n, m);
    assert s[n + m - 1] == rest[m - 1];
  }

  lemma SkipFull(verb: Verb, gap: string, noun: string, rest: string, routine: ObjectType)
    requires verb.CreateOrAlter? && verb.Valid()
    requires routine != Table && Gap(gap) && IsNoun(noun, routine) && AtWordEnd(rest) && NameTail(rest) == None
    ensures FindDeclarations(verb.Text() + (gap + (noun + rest)), false) == FindDeclarations(rest, true)
  {
    hide FindDeclarations, MatchDeclaration, NameTail, IsNoun, Gap, Verb.Text, Word, KeywordAt;
    MatchOf(verb, gap, noun, rest, routine);
    var tail := verb.alter + (gap + (noun + rest));
    FullText(verb, gap + (noun + rest));
    WordParts(verb, gap + (noun + rest));
    WordIsWord(verb.create, "CREATE");
    SkipFirstWord(verb.create, verb.gap1 + (verb.or + (verb.gap2 + tail)));
    SkipGap(verb.gap1, verb.or + (verb.gap2 + tail));
    WordIsWord(verb.or, "OR");
    NoMatch(verb.or + (verb.gap2 + tail));
    OrWord(verb.or);
    SkipFirstWord(verb.or, verb.gap2 + tail);
    SkipGap(verb.gap2, tail);
    SkipSingle(verb.alter, gap, noun, rest, routine);
  }

  lemma OrWord(word: string)
    requires Word(word, "OR")
    ensures word != ""
  {
  }

  lemma FoundFrom(verb: Verb, gap: string, noun: string, rest: string, routine: ObjectType)
    requires routine != Table && verb.Valid() && Gap(gap) && IsNoun(noun, routine) && AtWordEnd(rest)
    ensures FindDeclarations(verb.Text() + (gap + (noun + rest)), false) == FoundAfter(rest, routine)
  {
    hide FindDeclarations, MatchDeclaration, NameTail, IsNoun, Gap;
    MatchOf(verb, gap, noun, rest, routine);
    if NameTail(rest).Some? {
      var head := verb.Text() + (gap + noun);
      assert verb.Text() + (gap + (noun + rest)) == head + rest;
      NounIsWord(noun, routine);
      FoundMatch(head, rest, routine);
    } else if verb.Single? {
      SkipSingle(verb.word, gap, noun, rest, routine);
    } else {
      SkipFull(verb, gap, noun, rest, routine);
    }
  }

  // ----- Surfaces ------------------------------------------------------------------------

  predicate AllPlain(s: string) {
    forall i :: 0 <= i < |s| ==> Plain(s[i])
  }

  lemma WordIsPlain(word: string, keyword: string)
    requires Word(word, keyword)
    requires forall i :: 0 <= i < |keyword| ==> IsLetter(keyword[i])
    ensures AllPlain(word)
  {
  }

  lemma GapIsPlain(gap: string)
    requires Gap(gap)
    ensures AllPlain(gap)
  {
  }

  lemma PlainConcat(a: string, b: string)
    requires AllPlain(a) && AllPlain(b)
    ensures AllPlain(a + b)
  {
  }

  lemma VerbIsPlain(verb: Verb)
    requires verb.Valid()
    ensures AllPlain(verb.Text())
    ensures verb.Text() != "" && IsLetter(verb.Text()[0])
  {
    hide AllPlain, Gap;
    match verb
    case Single(word) =>
      WordIsPlain(word, if Word(word, "CREATE") then "CREATE" else "ALTER");
    case CreateOrAlter(create, gap1, or, gap2, alter) =>
      WordIsPlain(create, "CREATE");
      WordIsPlain(or, "OR");
      WordIsPlain(alter, "ALTER");
      GapIsPlain(gap1);
      GapIsPlain(gap2);
      PlainConcat(gap2, alter);
      PlainConcat(or, gap2 + alter);
      PlainConcat(gap1, or + (gap2 + alter));
      PlainConcat(create, gap1 + (or + (gap2 + alter)));
  }

  lemma HeadIsPlain(verb: Verb, gap: string, noun: string, routine: ObjectType)
    requires routine != Table && verb.Valid() && Gap(gap) && IsNoun(noun, routine)
    ensures AllPlain(verb.Text() + (gap + noun))
    ensures verb.Text() != "" && IsLetter(verb.Text()[0])
  {
    hide Verb.Text, Verb.Valid, Gap;
    VerbIsPlain(verb);
    GapIsPlain(gap);
    NounIsWord(noun, routine);
  }

  lemma SurfaceOfHead(p: string, head: string, rest: string)
    requires EndsNormal(p) && head != "" && IsLetter(head[0]) && AllPlain(head)
    ensures Surface(p + (head + rest)) == Surface(p) + (head + Surface(rest))
  {
    hide Surface, Joins, LastToken, EndsNormal;
    LetterNeverJoins(LastToken(p), (head + rest)[0]);
    Compositional(p, head + rest);
    PlainPrefix(head, rest);
  }

  /** The declarations of a text that begins with trivia and a leading declaration. */
  lemma DeclaredAfterHead(p: string, verb: Verb, gap: string, noun: string, rest: string, routine: ObjectType)
    requires routine != Table && verb.Valid() && Gap(gap) && IsNoun(noun, routine) && AtWordEnd(rest)
    requires EndsNormal(p) && NoWordIn(Surface(p))
    ensures DeclaredIn(p + (verb.Text() + (gap + noun) + rest)) == FoundAfter(Surface(rest), routine)
  {
    hide Surface, FindDeclarations, Gap, IsNoun, FoundAfter, EndsNormal;
    var head := verb.Text() + (gap + noun);
    HeadIsPlain(verb, gap, noun, routine);
    SurfaceOfHead(p, head, rest);
    SkipNonWord(Surface(p), head + Surface(rest), false);
    KeepsShape(rest);
    HeadThen(verb.Text(), gap, noun, Surface(rest));
    FoundFrom(verb, gap, noun, Surface(rest), routine);
  }

  lemma HeadThen(verb: string, gap: string, noun: string, rest: string)
    ensures verb + (gap + noun) + rest == verb + (gap + (noun + rest))
  {
  }

  // ----- The theorems --------------------------------------------------------------------

  predicate NoWordIn(s: string) {
    forall i :: 0 <= i < |s| ==> !IsWordChar(s[i])
  }

  lemma BomThenTrivia(bom: string, trivia: string)
    requires bom == "" || bom == "\U{FEFF}"
    requires EndsNormal(trivia) && AllSpace(Surface(trivia))
    ensures EndsNormal(bom + trivia) && NoWordIn(Surface(bom + trivia))
  {
    hide EndsNormal, Surface;
    PlainPrefix(bom, trivia);
  }

  /** The skipped prefix of `definition`, found again in any text that continues it with a
      letter. */
  lemma PrefixOf(definition: string, y: string)
    requires var start := Offset(definition);
             start < |definition| && SamePrefix(definition, y, start) && start < |y| && IsLetter(y[start])
    ensures var p := y[..Offset(definition)]; EndsNormal(p) && NoWordIn(Surface(p))
    ensures Offset(y) == Offset(definition)
  {
    hide LeadingTrivia, Surface, EndsNormal, AllSpace;
    var bom := BomLength(definition);
    var start := Offset(definition);
    assert SamePrefix(definition[bom..], y[bom..], start - bom);
    TriviaIsLexed(definition[bom..], y[bom..]);
    BomSame(definition, y, start);
    BomThenTrivia(y[..bom], y[bom..][..start - bom]);
    assert y[..start] == y[..bom] + y[bom..][..start - bom];
  }

  lemma BomSame(x: string, y: string, n: nat)
    requires BomLength(x) <= n < |y| && SamePrefix(x, y, n) && IsLetter(y[n])
    ensures BomLength(y) == BomLength(x)
    ensures y[..BomLength(x)] == "" || y[..BomLength(x)] == "\U{FEFF}"
  {
  }

  /** The declaration a normalisation rewrites, taken apart. */
  lemma Normalizes(definition: string, routine: ObjectType)
    returns (p: string, verb: Verb, gap: string, noun: string, rest: string)
    requires routine != Table && Normalize(definition, routine).Ok?
    ensures verb.Valid() && Gap(gap) && IsNoun(noun, routine) && AtWordEnd(rest)
    ensures definition == p + (verb.Text() + (gap + noun) + rest)
    ensures Normalize(definition, routine) == Ok(p + Canonical(routine) + rest)
    ensures |p| == Offset(definition)
  {
    hide Offset, RoutineEnd, Gap, IsNoun;
    var start := Offset(definition);
    var n := RoutineEnd(definition[start..], routine).value;
    p, rest := definition[..start], definition[start + n..];
    verb, gap, noun := RoutineShape(definition[start..], routine);
    DropDrop(definition, start, n);
  }

  lemma CanonicalHead(routine: ObjectType) returns (verb: Verb, gap: string, noun: string)
    requires routine != Table
    ensures verb.CreateOrAlter? && verb.Valid() && Gap(gap) && IsNoun(noun, routine)
    ensures verb.Text() + (gap + noun) == Canonical(routine)
  {
    verb, gap := CreateOrAlter("CREATE", " ", "OR", " ", "ALTER"), " ";
    noun := Nouns(routine)[0];
    assert Word(noun, Nouns(routine)[0]);
    CanonicalVerb();
    hide Gap, IsNoun, AllSpace;
    Associate("CREATE OR ALTER", " ", noun);
  }

  lemma CanonicalVerb()
    ensures CreateOrAlter("CREATE", " ", "OR", " ", "ALTER").Text() == "CREATE OR ALTER"
  {
  }

  /** Whenever normalisation succeeds, the rewritten routine declares exactly what the original
      does: the same objects, in the same order, so the same count, type, schema and name. */
  lemma NormalizationKeepsIdentity(definition: string, routine: ObjectType)
    requires routine != Table && Normalize(definition, routine).Ok?
    ensures DeclaredIn(Normalize(definition, routine).value) == DeclaredIn(definition)
    ensures DetectIdentity(Normalize(definition, routine).value) == DetectIdentity(definition)
  {
    hide DeclaredIn, Normalize, Surface, Offset, Gap, IsNoun, LeadingTrivia, Canonical, FoundAfter;
    var p, verb, gap, noun, rest := Normalizes(definition, routine);
    HeadIsPlain(verb, gap, noun, routine);
    assert definition[..|p|] == p && definition[|p|] == (verb.Text() + (gap + noun))[0];
    PrefixOf(definition, definition);
    DeclaredAfterHead(p, verb, gap, noun, rest, routine);
    var verb', gap', noun' := CanonicalHead(routine);
    DeclaredAfterHead(p, verb', gap', noun', rest, routine);
    assert p + Canonical(routine) + rest == p + (Canonical(routine) + rest);
  }

  lemma CanonicalEnd(rest: string, routine: ObjectType)
    requires routine != Table && AtWordEnd(rest)
    ensures RoutineEnd(Canonical(routine) + rest, routine) == Some(|Canonical(routine)|)
  {
    hide CreateOrAlterEnd, Gap, SpaceRun, Canonical, AtWordEnd, KeywordAt, AllSpace;
    var verb, gap, noun := CanonicalHead(routine);
    CanonicalNoun(verb, gap, noun, rest, routine);
    FullVerb(verb, gap + (noun + rest));
    HeadThen(verb.Text(), gap, noun, rest);
  }

  lemma CanonicalNoun(verb: Verb, gap: string, noun: string, rest: string, routine: ObjectType)
    requires routine != Table && verb.CreateOrAlter? && Gap(gap) && IsNoun(noun, routine) && AtWordEnd(rest)
    ensures VerbNounEnd(verb.Text() + (gap + (noun + rest)), |verb.Text()|, routine) ==
            Some(|verb.Text()| + |gap| + |noun|)
  {
    hide SpaceRun, NounEnd, IsNoun;
    var s := verb.Text() + (gap + (noun + rest));
    NounIsWord(noun, routine);
    assert IsLetter((noun + rest)[0]) by {
      KindOf(noun, rest, routine);
    }
    GapIs(gap, noun + rest);
    assert s[|verb.Text()|..] == gap + (noun + rest);
    DropDrop(s, |verb.Text()|, |gap|);
    assert s[|verb.Text()| + |gap|..] == noun + rest;
    NounEndOf(noun, rest, routine);
  }

  lemma NounEndOf(noun: string, rest: string, routine: ObjectType)
    requires routine != Table && IsNoun(noun, routine) && AtWordEnd(rest)
    ensures NounEnd(noun + rest, Nouns(routine)) == Some(|noun|)
  {
    var s, nouns := noun + rest, Nouns(routine);
    NounsAre(noun, routine);
    var k :| 0 <= k < |nouns| && Word(noun, nouns[k]);
    WordThen(noun, rest, nouns[k]);
    if k == 1 {
      assert !KeywordAt(s, "PROCEDURE");
    }
  }

  /** A text with trivia before a canonical declaration is already normalised. */
  lemma CanonicalIsNormal(p: string, rest: string, routine: ObjectType)
    requires routine != Table && AtWordEnd(rest)
    requires Offset(p + Canonical(routine) + rest) == |p|
    ensures Normalize(p + Canonical(routine) + rest, routine) == Ok(p + Canonical(routine) + rest)
  {
    hide Offset, Canonical, RoutineEnd, AtWordEnd;
    var once := p + Canonical(routine) + rest;
    CanonicalEnd(rest, routine);
    assert once[|p|..] == Canonical(routine) + rest;
    assert once[..|p|] == p;
    assert once[|p| + |Canonical(routine)|..] == rest;
  }

  /** Normalising a normalised routine returns it unchanged. */
  lemma NormalizationIdempotent(definition: string, routine: ObjectType)
    requires routine != Table && Normalize(definition, routine).Ok?
    ensures var once := Normalize(definition, routine).value;
            Normalize(once, routine) == Ok(once)
  {
    hide Surface, Offset, Gap, IsNoun, Canonical, EndsNormal, Normalize, AtWordEnd;
    var p, verb, gap, noun, rest := Normalizes(definition, routine);
    HeadIsPlain(verb, gap, noun, routine);
    var once := p + Canonical(routine) + rest;
    var verb', gap', noun' := CanonicalHead(routine);
    HeadIsPlain(verb', gap', noun', routine);
    SameUpTo(p, verb'.Text() + (gap' + noun'), rest, verb.Text() + (gap + noun), rest);
    PrefixOf(definition, once);
    CanonicalIsNormal(p, rest, routine);
  }

  lemma SameUpTo(p: string, head: string, x: string, head': string, x': string)
    requires head != "" && head' != ""
    ensures SamePrefix(p + (head' + x'), p + head + x, |p|)
    ensures |p| < |p + head + x| && (p + head + x)[|p|] == head[0]
    ensures |p| < |p + (head' + x')|
  {
  }
}
