/** A declaration is detected under exactly the names written in it, bare or in brackets, with one part or
    with two. */
module WrittenNames {
  import opened Text
  import opened DeclarationLexer
  import opened SurfaceLaws
  import opened Declarations
  import opened RoutineNormalization
  import opened RoutineIdentity
  import opened DeclarationNames

  // ----- Names as written ----------------------------------------------------------------

  predicate StartsName(c: char) {
    'a' <= c <= 'z' || 'A' <= c <= 'Z' || c == '_'
  }

  predicate ContinuesName(c: char) {
    StartsName(c) || '0' <= c <= '9' || c == '$' || c == '#' || c == '@'
  }

  datatype Written = Bare(name: string) | InBrackets(name: string) {
    predicate Valid() {
      match this
      case Bare(name) => name != "" && StartsName(name[0]) && forall i :: 0 < i < |name| ==> ContinuesName(name[i])
      case InBrackets(name) => IsName(name)
    }

    function Text(): string {
      match this
      case Bare(name) => name
      case InBrackets(name) => Bracketed(name)
    }

    /** The name ends here: what follows does not continue it. */
    predicate EndsBefore(t: string) {
      t == "" || match this
                 case Bare(_) => !ContinuesName(t[0])
                 case InBrackets(_) => t[0] != ']'
    }
  }

  /** The second part of a name, with the blanks around its dot. */
  datatype Part = Part(before: string, after: string, written: Written) {
    predicate Valid() {
      AllSpace(before) && AllSpace(after) && written.Valid()
    }
  }

  predicate DotNext(t: string) {
    exists n :: 0 <= n < |t| && AllSpace(t[..n]) && t[n] == '.'
  }

  /** A blank gap, one name or two, and what follows. */
  function Naming(gap: string, first: Written, second: Option<Part>, tail: string): string {
    match second
    case None => gap + (first.Text() + tail)
    case Some(part) => gap + (first.Text() + Dotted(part, tail))
  }

  function Dotted(part: Part, tail: string): string {
    part.before + ("." + (part.after + (part.written.Text() + tail)))
  }

  predicate ValidNaming(gap: string, first: Written, second: Option<Part>, tail: string) {
    && Gap(gap) && first.Valid()
    && match second
       case None => first.EndsBefore(tail) && !DotNext(Surface(tail))
       case Some(part) => part.Valid() && part.written.EndsBefore(tail)
  }

  function Named(kind: ObjectType, first: Written, second: Option<Part>): Identity {
    match second
    case None => Identity(kind, "dbo", first.name)
    case Some(part) => Identity(kind, first.name, part.written.name)
  }

  // ----- One name ------------------------------------------------------------------------

  lemma {:induction false} NameRunOf(s: string, t: string)
    requires forall i :: 0 <= i < |s| ==> ContinuesName(s[i])
    requires t == "" || !ContinuesName(t[0])
    ensures NameRun(s + t) == |s|
  {
    if s == "" {
      assert s + t == t;
    } else {
      assert (s + t)[1..] == s[1..] + t;
      NameRunOf(s[1..], t);
    }
  }

  lemma WrittenEnd(w: Written, t: string)
    requires w.Valid() && w.EndsBefore(t)
    ensures IdentifierEnd(w.Text() + t) == Some(|w.Text()|)
    ensures w.Text() != "" && !IsSpace(w.Text()[0]) && w.Text()[0] != '.'
  {
    hide BracketEnd, DoubleBrackets;
    match w
    case Bare(name) =>
      assert (name + t)[1..] == name[1..] + t;
      NameRunOf(name[1..], t);
    case InBrackets(name) =>
      IdentifierEndOf(name, t);
  }

  lemma WrittenMeans(w: Written)
    requires w.Valid()
    ensures Identifier(w.Text()) == w.name
  {
    hide UndoubleBrackets;
    if w.InBrackets? {
      IdentifierOf(w.name);
    }
  }

  lemma BareIsPlain(name: string)
    requires Bare(name).Valid()
    ensures forall i :: 0 <= i < |name| ==> Plain(name[i])
  {
  }

  lemma SurfaceOfWritten(w: Written, t: string)
    requires w.Valid() && w.EndsBefore(t)
    ensures Surface(w.Text() + t) == w.Text() + Surface(t)
  {
    hide Surface, Bracketed, Plain;
    match w
    case Bare(name) =>
      BareIsPlain(name);
      PlainPrefix(name, t);
    case InBrackets(name) =>
      SurfaceOfName(name, t);
  }

  // ----- The name tail -------------------------------------------------------------------

  lemma SpaceIsPlain(s: string)
    requires AllSpace(s)
    ensures forall i :: 0 <= i < |s| ==> Plain(s[i])
  {
  }

  lemma EndsBeforeDotted(w: Written, part: Part, tail: string)
    requires AllSpace(part.before)
    ensures w.EndsBefore(Dotted(part, tail))
  {
    assert part.before != "" ==> IsSpace(part.before[0]);
  }

  lemma SurfaceOfDotted(part: Part, tail: string)
    requires part.Valid() && part.written.EndsBefore(tail)
    ensures Surface(Dotted(part, tail)) == Dotted(part, Surface(tail))
  {
    hide Surface, Written.Text, Written.Valid, Written.EndsBefore, Plain, AllSpace;
    SurfaceOfWritten(part.written, tail);
    var x := part.written.Text() + tail;
    SpaceIsPlain(part.after);
    PlainPrefix(part.after, x);
    DotIsPlain();
    PlainPrefix(".", part.after + x);
    SpaceIsPlain(part.before);
    PlainPrefix(part.before, "." + (part.after + x));
  }

  lemma DotIsPlain()
    ensures forall i :: 0 <= i < |"."| ==> Plain("."[i])
  {
  }

  lemma SurfaceOfNaming(gap: string, first: Written, second: Option<Part>, tail: string)
    requires ValidNaming(gap, first, second, tail)
    ensures Surface(Naming(gap, first, second, tail)) == Naming(gap, first, second, Surface(tail))
  {
    hide Surface, Written.Text, Written.Valid, Written.EndsBefore, Plain, Dotted, AllSpace, DotNext;
    var rest := if second.None? then tail else Dotted(second.value, tail);
    if second.Some? {
      EndsBeforeDotted(first, second.value, tail);
      SurfaceOfDotted(second.value, tail);
    }
    SurfaceOfWritten(first, rest);
    SpaceIsPlain(gap);
    PlainPrefix(gap, first.Text() + rest);
  }

  lemma NoSecond(t: string)
    requires !DotNext(t)
    ensures SecondPart(t) == None
  {
    hide SpaceRun, AllSpace;
    SpaceRunIs(t);
  }

  lemma SecondOf(part: Part, t: string)
    requires part.Valid() && part.written.EndsBefore(t)
    ensures var text := part.written.Text();
            SecondPart(Dotted(part, t)) == Some((|part.before| + 1 + |part.after| + |text|, text))
    ensures |part.before| + 1 + |part.after| + |part.written.Text()| <= |Dotted(part, t)|
    ensures Dotted(part, t)[|part.before| + 1 + |part.after| + |part.written.Text()|..] == t
  {
    hide SpaceRun, IdentifierEnd, Written.Text, Written.Valid, Written.EndsBefore, AllSpace;
    var text := part.written.Text();
    WrittenEnd(part.written, t);
    var x := text + t;
    var s := Dotted(part, t);
    SpaceRunOf(part.before, "." + (part.after + x));
    SpaceRunOf(part.after, x);
    var a := |part.before|;
    assert s[a] == '.';
    assert s[a + 1..] == part.after + x;
    DropDrop(s, a + 1, |part.after|);
    var b := a + 1 + |part.after|;
    assert s[b..] == x;
    assert s[b..b + |text|] == x[..|text|] == text;
    DropDrop(s, b, |text|);
  }

  /** `\s+identifier(\s*\.\s*identifier)?` on a naming, and how long the match is. */
  function NamesOfNaming(gap: string, first: Written, second: Option<Part>): Names {
    match second
    case None => Names(|gap| + |first.Text()|, first.Text(), None)
    case Some(part) =>
      Names(|gap| + |first.Text()| + (|part.before| + 1 + |part.after| + |part.written.Text()|), first.Text(),
            Some(part.written.Text()))
  }

  lemma NameTailOf(gap: string, first: Written, rest: string)
    requires Gap(gap) && first.Valid() && first.EndsBefore(rest)
    ensures var text := first.Text();
            NameTail(gap + (text + rest)) ==
            match SecondPart(rest)
            case None => Some(Names(|gap| + |text|, text, None))
            case Some((m, second)) => Some(Names(|gap| + |text| + m, text, Some(second)))
    ensures (gap + (first.Text() + rest))[|gap| + |first.Text()|..] == rest
  {
    hide SpaceRun, IdentifierEnd, SecondPart, Written.Text, Written.Valid, Written.EndsBefore;
    var text := first.Text();
    WrittenEnd(first, rest);
    var s := gap + (text + rest);
    SpaceRunOf(gap, text + rest);
    assert s[|gap|..] == text + rest;
    assert s[|gap|..|gap| + |text|] == text;
    DropDrop(s, |gap|, |text|);
    assert s[|gap| + |text|..] == rest;
  }

  /** The naming as it stands on the surface: its tail is a surface already. */
  predicate OnSurface(gap: string, first: Written, second: Option<Part>, t: string) {
    && Gap(gap) && first.Valid()
    && match second
       case None => first.EndsBefore(t) && !DotNext(t)
       case Some(part) => part.Valid() && part.written.EndsBefore(t)
  }

  lemma NamingIsRead(gap: string, first: Written, second: Option<Part>, t: string)
    requires OnSurface(gap, first, second, t)
    ensures var s, names := Naming(gap, first, second, t), NamesOfNaming(gap, first, second);
            && NameTail(s) == Some(names) && 0 < names.len <= |s| && s[names.len..] == t
  {
    hide NameTail, SecondPart, Written.Text, Written.Valid, Written.EndsBefore, Dotted, AllSpace, DotNext;
    match second
    case None =>
      NoSecond(t);
      NameTailOf(gap, first, t);
      NamingFits(gap, first.Text(), t);
    case Some(part) =>
      var rest := Dotted(part, t);
      EndsBeforeDotted(first, part, t);
      SecondOf(part, t);
      NameTailOf(gap, first, rest);
      NamingFits(gap, first.Text(), rest);
      DropDrop(gap + (first.Text() + rest), |gap| + |first.Text()|,
               |part.before| + 1 + |part.after| + |part.written.Text()|);
  }

  lemma NamingFits(gap: string, text: string, rest: string)
    ensures |gap + (text + rest)| == |gap| + |text| + |rest|
  {
  }

  lemma NamesMean(gap: string, first: Written, second: Option<Part>, kind: ObjectType)
    requires first.Valid() && (second.Some? ==> second.value.Valid())
    ensures IdentityOf(Declared(kind, NamesOfNaming(gap, first, second))) == Named(kind, first, second)
  {
    hide Identifier, Written.Text, Written.Valid;
    WrittenMeans(first);
    if second.Some? {
      WrittenMeans(second.value.written);
    }
  }

  // ----- After the name ------------------------------------------------------------------

  function LastWritten(first: Written, second: Option<Part>): Written {
    if second.None? then first else second.value.written
  }

  /** The last character read is the last one of the last name. */
  lemma LastRead(gap: string, first: Written, second: Option<Part>, t: string)
    requires OnSurface(gap, first, second, t)
    ensures var s, names, last := Naming(gap, first, second, t), NamesOfNaming(gap, first, second),
                                  LastWritten(first, second).Text();
            0 < names.len <= |s| && last != "" && s[names.len - 1] == last[|last| - 1]
  {
    hide NameTail, Written.Text, Written.Valid, Written.EndsBefore, AllSpace, DotNext;
    NamingIsRead(gap, first, second, t);
    WrittenEnd(LastWritten(first, second), t);
    if second.Some? {
      LastOfDotted(gap, first.Text(), second.value, t);
    }
  }

  lemma LastOfDotted(gap: string, text: string, part: Part, t: string)
    requires part.written.Text() != ""
    ensures var s, last := gap + (text + Dotted(part, t)), part.written.Text();
            var n := |gap| + |text| + (|part.before| + 1 + |part.after| + |last|);
            0 < n <= |s| && s[n - 1] == last[|last| - 1]
  {
    hide Written.Text;
    var last := part.written.Text();
    var head := gap + (text + (part.before + ("." + part.after)));
    assert gap + (text + Dotted(part, t)) == head + (last + t);
  }

  /** Behind a finished name no word is open. */
  lemma NothingOpen(w: Written, t: string)
    requires w.Valid() && w.EndsBefore(t)
    ensures var last := w.Text();
            last != "" && FindDeclarations(t, IsWordChar(last[|last| - 1])) == FindDeclarations(t, false)
  {
    hide FindDeclarations, MatchDeclaration, DoubleBrackets;
    if t == "" {
      NothingToFind();
    } else if w.Bare? {
      FindUnfold(t, true);
      FindUnfold(t, false);
      NoMatch(t);
    }
  }

  lemma NothingToFind()
    ensures forall b :: FindDeclarations("", b) == []
  {
  }

  lemma FoundNaming(gap: string, first: Written, second: Option<Part>, t: string, kind: ObjectType)
    requires OnSurface(gap, first, second, t)
    ensures FoundAfter(Naming(gap, first, second, t), kind)
         == [Named(kind, first, second)] + FindDeclarations(t, false)
  {
    hide NameTail, FindDeclarations, Naming, NamesOfNaming, Named, Written.Text, Written.Valid, Written.EndsBefore,
         DotNext, AllSpace;
    NamingIsRead(gap, first, second, t);
    LastRead(gap, first, second, t);
    NamesMean(gap, first, second, kind);
    NothingOpen(LastWritten(first, second), t);
  }

  // ----- Tables with any verb ------------------------------------------------------------

  predicate IsKindNoun(noun: string, kind: ObjectType) {
    if kind == Table then Word(noun, "TABLE") else IsNoun(noun, kind)
  }

  lemma TableTail(noun: string, rest: string)
    requires Word(noun, "TABLE") && NameTail(rest).Some?
    ensures KindTail(noun + rest) == Shifted(NameTail(rest), 5, Table)
    ensures noun != "" && IsLetter(noun[0]) && UpperChar(noun[0]) == 'T'
  {
    hide NameTail;
    WordThen(noun, rest, "TABLE");
  }

  lemma TableIsMatched(verb: Verb, gap: string, noun: string, rest: string)
    requires verb.Valid() && Gap(gap) && Word(noun, "TABLE") && NameTail(rest).Some?
    ensures MatchDeclaration(verb.Text() + (gap + (noun + rest))) ==
            Shifted(NameTail(rest), |verb.Text()| + |gap| + 5, Table)
  {
    hide NameTail, KindTail, VerbTail, Gap, KeywordAt, CreateOrAlterEnd;
    TableTail(noun, rest);
    var x := noun + rest;
    VerbTailOf(verb.Text(), gap, x);
    match verb
    case Single(word) =>
      SingleVerb(word, gap, x);
    case CreateOrAlter(create, gap1, or, gap2, alter) =>
      FullVerb(verb, gap + x);
      NoKeyword(verb.Text() + (gap + x), "ALTER");
  }

  lemma TableIsPlain(verb: Verb, gap: string, noun: string)
    requires verb.Valid() && Gap(gap) && Word(noun, "TABLE")
    ensures AllPlain(verb.Text() + (gap + noun)) && verb.Text() != "" && IsLetter(verb.Text()[0]) && |noun| == 5
  {
    hide Verb.Text, Verb.Valid, Gap, AllPlain;
    VerbIsPlain(verb);
    GapIsPlain(gap);
    WordIsPlain(noun, "TABLE");
    PlainConcat(gap, noun);
    PlainConcat(verb.Text(), gap + noun);
  }

  lemma TableAfterHead(p: string, verb: Verb, gap: string, noun: string, rest: string)
    requires verb.Valid() && Gap(gap) && Word(noun, "TABLE") && NameTail(Surface(rest)).Some?
    requires EndsNormal(p) && NoWordIn(Surface(p))
    ensures DeclaredIn(p + (verb.Text() + (gap + noun) + rest)) == FoundAfter(Surface(rest), Table)
  {
    hide Surface, FindDeclarations, Gap, FoundAfter, EndsNormal, Verb.Text, Verb.Valid, Word, NameTail,
         MatchDeclaration;
    var head := verb.Text() + (gap + noun);
    TableIsPlain(verb, gap, noun);
    SurfaceOfHead(p, head, rest);
    SkipNonWord(Surface(p), head + Surface(rest), false);
    TableIsMatched(verb, gap, noun, Surface(rest));
    HeadThen(verb.Text(), gap, noun, Surface(rest));
    FoundMatch(head, Surface(rest), Table);
  }

  // ----- The theorems --------------------------------------------------------------------

  lemma NamingEndsWord(gap: string, first: Written, second: Option<Part>, tail: string)
    requires Gap(gap)
    ensures AtWordEnd(Naming(gap, first, second, tail))
  {
    hide Dotted, Written.Text;
    assert IsSpace(gap[0]);
  }

  lemma StaysOnSurface(gap: string, first: Written, second: Option<Part>, tail: string)
    requires ValidNaming(gap, first, second, tail)
    ensures OnSurface(gap, first, second, Surface(tail))
  {
    hide Surface, Written.Valid, DotNext, AllSpace;
    KeepsShape(tail);
  }

  /** A declaration of any kind, in any spelling of its verb and noun and after any comments and blanks, is
      found under the names written in it, and what follows is searched on its own. */
  lemma DeclarationIsFound(p: string, verb: Verb, gap: string, noun: string, kind: ObjectType, space: string,
                           first: Written, second: Option<Part>, tail: string)
    requires verb.Valid() && Gap(gap) && IsKindNoun(noun, kind)
    requires EndsNormal(p) && NoWordIn(Surface(p))
    requires ValidNaming(space, first, second, tail)
    ensures DeclaredIn(p + (verb.Text() + (gap + noun) + Naming(space, first, second, tail)))
         == [Named(kind, first, second)] + DeclaredIn(tail)
  {
    hide Surface, FindDeclarations, Gap, IsNoun, FoundAfter, EndsNormal, Verb.Text, Verb.Valid, Naming, Named, Word,
         NameTail, NoWordIn, NamesOfNaming, AllSpace, Written.Valid, Written.EndsBefore, DotNext;
    var rest := Naming(space, first, second, tail);
    SurfaceOfNaming(space, first, second, tail);
    StaysOnSurface(space, first, second, tail);
    FoundNaming(space, first, second, Surface(tail), kind);
    if kind == Table {
      NamingIsRead(space, first, second, Surface(tail));
      TableAfterHead(p, verb, gap, noun, rest);
    } else {
      NamingEndsWord(space, first, second, tail);
      DeclaredAfterHead(p, verb, gap, noun, rest, kind);
    }
  }

  /** So its file is identified exactly when nothing after the names declares another object. */
  lemma DeclarationIsIdentified(p: string, verb: Verb, gap: string, noun: string, kind: ObjectType, space: string,
                                first: Written, second: Option<Part>, tail: string)
    requires verb.Valid() && Gap(gap) && IsKindNoun(noun, kind)
    requires EndsNormal(p) && NoWordIn(Surface(p))
    requires ValidNaming(space, first, second, tail)
    ensures DetectIdentity(p + (verb.Text() + (gap + noun) + Naming(space, first, second, tail)))
         == if DeclaredIn(tail) == [] then Ok(Named(kind, first, second)) else Err(COUNT_INVALID)
  {
    hide DeclaredIn, Naming, Named, ValidNaming, Surface, EndsNormal, Gap, IsKindNoun, Verb.Valid, Verb.Text,
         NoWordIn;
    DeclarationIsFound(p, verb, gap, noun, kind, space, first, second, tail);
  }

  // ----- Nothing else is found -----------------------------------------------------------

  predicate NoVerb(s: string) {
    forall i :: 0 <= i < |s| ==> !KeywordAt(s[i..], "CREATE") && !KeywordAt(s[i..], "ALTER")
  }

  lemma {:induction false} NoVerbNoMatch(s: string, afterWord: bool)
    requires NoVerb(s)
    ensures FindDeclarations(s, afterWord) == []
    decreases |s|
  {
    hide FindDeclarations, KeywordAt, VerbTail, KindTail;
    if s == "" {
      NothingToFind();
    } else {
      FindUnfold(s, afterWord);
      assert s[0..] == s;
      forall i | 0 <= i < |s| - 1 ensures s[1..][i..] == s[i + 1..] {
      }
      NoVerbNoMatch(s[1..], IsWordChar(s[0]));
    }
  }

  /** A text declares nothing when neither verb stands anywhere in it outside quotes and comments. */
  lemma NothingIsDeclared(content: string)
    requires NoVerb(Surface(content))
    ensures DeclaredIn(content) == [] && DetectIdentity(content) == Err(COUNT_INVALID)
  {
    hide Surface, FindDeclarations;
    NoVerbNoMatch(Surface(content), false);
  }
}
