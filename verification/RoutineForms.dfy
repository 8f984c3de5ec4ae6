/** Which routines can be normalised: any leading declaration of the kind asked for, behind any blanks and
    comments. */
module RoutineForms {
  import opened Text
  import opened DeclarationLexer
  import opened SurfaceForms
  import opened Declarations
  import opened RoutineNormalization
  import opened RoutineIdentity

  // ----- Leading blanks and comments -----------------------------------------------------

  datatype Trivia = Space(c: char) | Line(text: string) | Block(inside: Inside) {
    predicate Valid() {
      match this
      case Space(c) => IsSpace(c)
      case Line(text) => forall i :: 0 <= i < |text| ==> text[i] != '\n'
      case Block(inside) => inside.Valid()
    }

    function Text(): string {
      match this
      case Space(c) => [c]
      case Line(text) => "--" + (text + "\n")
      case Block(inside) => Comment(inside.Text())
    }
  }

  function Leading(parts: seq<Trivia>): string {
    if parts == [] then "" else parts[0].Text() + Leading(parts[1..])
  }

  predicate AllValid(parts: seq<Trivia>) {
    forall i :: 0 <= i < |parts| ==> parts[i].Valid()
  }

  lemma OneSkipped(part: Trivia, t: string)
    requires part.Valid()
    ensures LeadingTrivia(part.Text() + t) == |part.Text()| + LeadingTrivia(t)
  {
    hide LeadingTrivia, TokenSpan, Inside.Text, Inside.Valid, Hidden;
    var s := part.Text() + t;
    assert s[|part.Text()|..] == t;
    TriviaUnfold(s);
    match part
    case Space(c) =>
    case Line(text) =>
      LineToken(text, t);
      assert s[0] == '-' && s[1] == '-';
    case Block(inside) =>
      InsideToken(inside, t);
      assert s[0] == '/' && s[1] == '*';
  }

  /** The skipper passes over all of it, and stops at the first letter behind. */
  lemma {:induction false} LeadingIsSkipped(parts: seq<Trivia>, x: string)
    requires AllValid(parts) && x != "" && IsLetter(x[0])
    ensures LeadingTrivia(Leading(parts) + x) == |Leading(parts)|
  {
    hide LeadingTrivia, Trivia.Text, Trivia.Valid;
    if parts == [] {
      assert Leading(parts) + x == x;
      LetterIsNoTrivia(x);
    } else {
      LeadingIsSkipped(parts[1..], x);
      OneSkipped(parts[0], Leading(parts[1..]) + x);
      Associate(parts[0].Text(), Leading(parts[1..]), x);
    }
  }

  lemma NoMark(parts: seq<Trivia>, x: string)
    requires AllValid(parts) && x != "" && IsLetter(x[0])
    ensures BomLength(Leading(parts) + x) == 0
  {
    hide Inside.Text, Inside.Valid;
    if parts != [] {
      var part := parts[0];
      assert (Leading(parts) + x)[0] == part.Text()[0];
    }
  }

  lemma OffsetOf(bom: bool, parts: seq<Trivia>, x: string)
    requires AllValid(parts) && x != "" && IsLetter(x[0])
    ensures var p := (if bom then "\U{FEFF}" else "") + Leading(parts); Offset(p + x) == |p|
  {
    hide LeadingTrivia, Leading, AllValid;
    LeadingIsSkipped(parts, x);
    NoMark(parts, x);
    if bom {
      assert ("\U{FEFF}" + Leading(parts) + x)[1..] == Leading(parts) + x;
    } else {
      assert "" + Leading(parts) == Leading(parts);
      assert (Leading(parts) + x)[0..] == Leading(parts) + x;
    }
  }

  // ----- The declaration -----------------------------------------------------------------

  lemma NounAfterVerb(verb: string, gap: string, noun: string, rest: string, routine: ObjectType)
    requires routine != Table && Gap(gap) && IsNoun(noun, routine) && AtWordEnd(rest)
    ensures VerbNounEnd(verb + (gap + (noun + rest)), |verb|, routine) == Some(|verb| + |gap| + |noun|)
  {
    hide SpaceRun, NounEnd, IsNoun;
    var s := verb + (gap + (noun + rest));
    NounIsWord(noun, routine);
    assert IsLetter((noun + rest)[0]) by {
      KindOf(noun, rest, routine);
    }
    GapIs(gap, noun + rest);
    assert s[|verb|..] == gap + (noun + rest);
    DropDrop(s, |verb|, |gap|);
    NounEndOf(noun, rest, routine);
  }

  lemma SingleHasNoFull(word: string, gap: string, x: string)
    requires Gap(gap) && x != "" && IsLetter(x[0]) && UpperChar(x[0]) != 'O'
    requires Word(word, "CREATE") || Word(word, "ALTER")
    ensures CreateOrAlterEnd(word + (gap + x)) == None
    ensures Word(word, "CREATE") ==> KeywordAt(word + (gap + x), "CREATE") && |word| == 6
    ensures !Word(word, "CREATE") ==>
              !KeywordAt(word + (gap + x), "CREATE") && KeywordAt(word + (gap + x), "ALTER") && |word| == 5
  {
    hide SpaceRun, Gap, KeywordAt;
    var s := word + (gap + x);
    if Word(word, "CREATE") {
      WordThen(word, gap + x, "CREATE");
      WordSize(word, "CREATE");
      GapIs(gap, x);
      NoKeyword(x, "OR");
      assert s[6..] == gap + x;
      DropDrop(s, 6, |gap|);
    } else {
      WordThen(word, gap + x, "ALTER");
      WordSize(word, "ALTER");
      WordStarts(word, gap + x, "ALTER");
      NoKeyword(s, "CREATE");
    }
  }

  lemma HeadIsFound(verb: Verb, gap: string, noun: string, rest: string, routine: ObjectType)
    requires routine != Table && verb.Valid() && Gap(gap) && IsNoun(noun, routine) && AtWordEnd(rest)
    ensures RoutineEnd(verb.Text() + (gap + (noun + rest)), routine) == Some(|verb.Text()| + |gap| + |noun|)
  {
    hide VerbNounEnd, CreateOrAlterEnd, Gap, IsNoun, KeywordAt, Word, AtWordEnd;
    NounAfterVerb(verb.Text(), gap, noun, rest, routine);
    KindOf(noun, rest, routine);
    match verb
    case Single(word) =>
      SingleHasNoFull(word, gap, noun + rest);
    case CreateOrAlter(create, gap1, or, gap2, alter) =>
      FullVerb(verb, gap + (noun + rest));
  }

  /** The head that every normalised routine has. */
  function Head(routine: ObjectType): string {
    if routine == Procedure then "CREATE OR ALTER PROCEDURE" else "CREATE OR ALTER FUNCTION"
  }

  lemma CanonicalIs(routine: ObjectType)
    requires routine != Table
    ensures Canonical(routine) == Head(routine)
  {
    assert "CREATE OR ALTER" + " " + "PROCEDURE" == "CREATE OR ALTER PROCEDURE";
    assert "CREATE OR ALTER" + " " + "FUNCTION" == "CREATE OR ALTER FUNCTION";
  }

  /** A definition that opens with a declaration of the routine asked for, in any spelling and behind any
      byte-order mark, blanks and comments, is normalised: its head becomes the canonical one and every other
      character stays. */
  lemma LeadingIsNormalized(bom: bool, parts: seq<Trivia>, verb: Verb, gap: string, noun: string, rest: string,
                            routine: ObjectType)
    requires AllValid(parts)
    requires routine != Table && verb.Valid() && Gap(gap) && IsNoun(noun, routine) && AtWordEnd(rest)
    ensures var p := (if bom then "\U{FEFF}" else "") + Leading(parts);
            Normalize(p + (verb.Text() + (gap + (noun + rest))), routine) == Ok(p + Head(routine) + rest)
  {
    hide Offset, RoutineEnd, Leading, AllValid, Gap, IsNoun, AtWordEnd, Verb.Text, Verb.Valid, Canonical;
    var p := (if bom then "\U{FEFF}" else "") + Leading(parts);
    var x := verb.Text() + (gap + (noun + rest));
    VerbIsPlain(verb);
    OffsetOf(bom, parts, x);
    HeadIsFound(verb, gap, noun, rest, routine);
    CanonicalIs(routine);
    assert (p + x)[..|p|] == p && (p + x)[|p|..] == x;
    assert (p + x)[|p| + (|verb.Text()| + |gap| + |noun|)..] == rest;
  }

  /** Any other text is refused: where blanks and comments end, neither verb stands. */
  lemma OtherIsRefused(definition: string, routine: ObjectType)
    requires routine != Table
    requires var s := definition[Offset(definition)..]; !KeywordAt(s, "CREATE") && !KeywordAt(s, "ALTER")
    ensures Normalize(definition, routine) == Err(if routine == Procedure then "PROCEDURE_DEFINITION_HEADER_UNSUPPORTED"
                                                  else "FUNCTION_DEFINITION_HEADER_UNSUPPORTED")
  {
    hide Offset, KeywordAt, VerbNounEnd, GapKeywordEnd;
  }
}
