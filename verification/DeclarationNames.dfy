/** A declaration written with bracketed names is detected with exactly those names. */
module DeclarationNames {
  import opened Text
  import opened DeclarationLexer
  import opened SurfaceLaws
  import opened Declarations
  import opened RoutineIdentity

  // ----- Writing a name ------------------------------------------------------------------

  function DoubleBrackets(s: string): string {
    if s == "" then "" else (if s[0] == ']' then "]]" else [s[0]]) + DoubleBrackets(s[1..])
  }

  function Bracketed(name: string): string {
    "[" + (DoubleBrackets(name) + "]")
  }

  predicate IsName(name: string) {
    name != "" && forall i :: 0 <= i < |name| ==> name[i] != '\r' && name[i] != '\n'
  }

  predicate NoBracketNext(t: string) {
    t == "" || t[0] != ']'
  }

  // ----- Reading it back -----------------------------------------------------------------

  lemma {:induction false} UndoubleDoubled(s: string)
    ensures UndoubleBrackets(DoubleBrackets(s)) == s
  {
    if s != "" {
      UndoubleDoubled(s[1..]);
      assert s == [s[0]] + s[1..];
      if s[0] == ']' {
        assert DoubleBrackets(s)[2..] == DoubleBrackets(s[1..]);
      } else {
        assert DoubleBrackets(s)[1..] == DoubleBrackets(s[1..]);
      }
    }
  }

  lemma IdentifierOf(name: string)
    ensures Identifier(Bracketed(name)) == name
  {
    hide DoubleBrackets, UndoubleBrackets;
    UndoubleDoubled(name);
    var value := Bracketed(name);
    assert value[1..|value| - 1] == DoubleBrackets(name);
  }

  lemma CloseBracket(t: string, seen: bool)
    requires NoBracketNext(t) && seen
    ensures BracketEnd("]" + t, seen) == Some(1)
    ensures QuotedSpan("]" + t, ']') == Span(1, true)
  {
  }

  lemma DoubledUnfold(s: string, t: string)
    requires s != ""
    ensures var whole := DoubleBrackets(s) + ("]" + t);
            var rest := DoubleBrackets(s[1..]) + ("]" + t);
            && (s[0] == ']' ==> whole == "]]" + rest && whole[2..] == rest)
            && (s[0] != ']' ==> whole == [s[0]] + rest && whole[1..] == rest)
  {
    var rest := DoubleBrackets(s[1..]) + ("]" + t);
    var first := if s[0] == ']' then "]]" else [s[0]];
    Associate(first, DoubleBrackets(s[1..]), "]" + t);
    assert (first + rest)[|first|..] == rest;
  }

  /** The pattern and the lexer find the closing bracket in the same place: the name's own. */
  lemma {:induction false} BracketEndOf(s: string, t: string, seen: bool)
    requires NoBracketNext(t) && (seen || s != "")
    requires forall i :: 0 <= i < |s| ==> s[i] != '\r' && s[i] != '\n'
    ensures BracketEnd(DoubleBrackets(s) + ("]" + t), seen) == Some(|DoubleBrackets(s)| + 1)
    ensures QuotedSpan(DoubleBrackets(s) + ("]" + t), ']') == Span(|DoubleBrackets(s)| + 1, true)
    decreases |s|
  {
    if s == "" {
      assert DoubleBrackets(s) + ("]" + t) == "]" + t;
      CloseBracket(t, seen);
    } else {
      BracketEndOf(s[1..], t, true);
      DoubledUnfold(s, t);
      BracketStep(s[0], DoubleBrackets(s[1..]) + ("]" + t), seen);
    }
  }

  lemma BracketStep(c: char, rest: string, seen: bool)
    requires c != '\r' && c != '\n' && BracketEnd(rest, true).Some?
    ensures c == ']' ==> BracketEnd("]]" + rest, seen) == Some(2 + BracketEnd(rest, true).value)
    ensures c == ']' ==> QuotedSpan("]]" + rest, ']') == QuotedSpan(rest, ']').After(2)
    ensures c != ']' ==> BracketEnd([c] + rest, seen) == Some(1 + BracketEnd(rest, true).value)
    ensures c != ']' ==> QuotedSpan([c] + rest, ']') == QuotedSpan(rest, ']').After(1)
  {
  }

  lemma NameThen(name: string, t: string)
    ensures var s := Bracketed(name) + t;
            s[0] == '[' && s[1..] == DoubleBrackets(name) + ("]" + t) && s[|Bracketed(name)|..] == t
            && s[..|Bracketed(name)|] == Bracketed(name)
  {
  }

  lemma IdentifierEndOf(name: string, t: string)
    requires IsName(name) && NoBracketNext(t)
    ensures IdentifierEnd(Bracketed(name) + t) == Some(|Bracketed(name)|)
  {
    hide DoubleBrackets, BracketEnd;
    NameThen(name, t);
    BracketEndOf(name, t, false);
  }

  lemma TokenIsName(name: string, t: string)
    requires IsName(name) && NoBracketNext(t)
    ensures var s := Bracketed(name) + t; TokenSpan(s) == Span(|Bracketed(name)|, true) && !Hidden(s)
  {
    hide DoubleBrackets, QuotedSpan;
    NameThen(name, t);
    BracketEndOf(name, t, false);
  }

  /** A bracketed name stays on the surface. */
  lemma SurfaceOfName(name: string, t: string)
    requires IsName(name) && NoBracketNext(t)
    ensures Surface(Bracketed(name) + t) == Bracketed(name) + Surface(t)
  {
    hide Surface, TokenSpan, Bracketed;
    NameThen(name, t);
    TokenIsName(name, t);
    SurfaceUnfold(Bracketed(name) + t);
  }

  function TwoNames(schemaName: string, objectName: string, tail: string): string {
    " " + (Bracketed(schemaName) + ("." + (Bracketed(objectName) + tail)))
  }

  lemma SurfaceOfNames(schemaName: string, objectName: string, tail: string)
    requires IsName(schemaName) && IsName(objectName) && NoBracketNext(tail)
    ensures Surface(TwoNames(schemaName, objectName, tail)) == TwoNames(schemaName, objectName, Surface(tail))
  {
    hide Surface, Bracketed;
    SurfaceOfName(objectName, tail);
    PlainPrefix(".", Bracketed(objectName) + tail);
    SurfaceOfName(schemaName, "." + (Bracketed(objectName) + tail));
    PlainPrefix(" ", Bracketed(schemaName) + ("." + (Bracketed(objectName) + tail)));
  }

  lemma SurfaceKeepsNext(t: string)
    requires NoBracketNext(t)
    ensures NoBracketNext(Surface(t))
  {
  }

  lemma SecondPartOf(name: string, t: string)
    requires IsName(name) && NoBracketNext(t)
    ensures SecondPart("." + (Bracketed(name) + t)) == Some((1 + |Bracketed(name)|, Bracketed(name)))
  {
    hide Bracketed, IdentifierEnd;
    var rest := Bracketed(name) + t;
    var s := "." + rest;
    NameThen(name, t);
    IdentifierEndOf(name, t);
    assert s[1..] == rest;
    assert SpaceRun(s) == 0 && SpaceRun(rest) == 0;
    assert s[1..1 + |Bracketed(name)|] == rest[..|Bracketed(name)|];
  }

  /** `\s+identifier(\s*\.\s*identifier)` on its pieces. */
  lemma NameTailFrom(x: string, n: nat, m: nat, second: string)
    requires x != "" && !IsSpace(x[0]) && n <= |x|
    requires IdentifierEnd(x) == Some(n) && SecondPart(x[n..]) == Some((m, second))
    ensures NameTail(" " + x) == Some(Names(1 + n + m, x[..n], Some(second)))
  {
    hide IdentifierEnd, SecondPart;
    var s := " " + x;
    assert s[1..] == x;
    assert SpaceRun(x) == 0 && SpaceRun(s) == 1;
    DropDrop(s, 1, n);
    assert s[1..1 + n] == x[..n];
  }

  lemma Layout(a: string, b: string, t: string)
    requires b != ""
    ensures var s := " " + (a + ("." + (b + t)));
            var n := 2 + |a| + |b|;
            n <= |s| && s[n..] == t && s[n - 1] == b[|b| - 1]
  {
  }

  lemma NamesOf(schemaName: string, objectName: string, t: string)
    requires IsName(schemaName) && IsName(objectName) && NoBracketNext(t)
    ensures var s := TwoNames(schemaName, objectName, t);
            var n := 2 + |Bracketed(schemaName)| + |Bracketed(objectName)|;
            && NameTail(s) == Some(Names(n, Bracketed(schemaName), Some(Bracketed(objectName))))
            && n <= |s| && s[n..] == t && s[n - 1] == ']'
  {
    hide Bracketed, IdentifierEnd, SecondPart, NameTail;
    var dotted := "." + (Bracketed(objectName) + t);
    NameThen(schemaName, dotted);
    IdentifierEndOf(schemaName, dotted);
    SecondPartOf(objectName, t);
    NameTailFrom(Bracketed(schemaName) + dotted, |Bracketed(schemaName)|, 1 + |Bracketed(objectName)|,
                 Bracketed(objectName));
    LastBracket(objectName);
    Layout(Bracketed(schemaName), Bracketed(objectName), t);
  }

  lemma LastBracket(name: string)
    ensures Bracketed(name) != "" && Bracketed(name)[|Bracketed(name)| - 1] == ']'
  {
  }

  lemma FoundNames(schemaName: string, objectName: string, t: string, kind: ObjectType)
    requires IsName(schemaName) && IsName(objectName) && NoBracketNext(t)
    ensures FoundAfter(TwoNames(schemaName, objectName, t), kind)
         == [Identity(kind, schemaName, objectName)] + FindDeclarations(t, false)
  {
    hide Bracketed, NameTail, FindDeclarations, TwoNames, Identifier;
    NamesOf(schemaName, objectName, t);
    IdentifierOf(schemaName);
    IdentifierOf(objectName);
  }

  // ----- The theorems --------------------------------------------------------------------

  /** A leading routine declaration, in any of its spellings and after any comments and blanks, is found
      under the names written in brackets, whatever brackets, quotes or comment marks they hold; what
      follows is searched on its own. */
  lemma BracketedRoutineIsFound(p: string, verb: Verb, gap: string, noun: string, routine: ObjectType,
                                schemaName: string, objectName: string, tail: string)
    requires routine != Table && verb.Valid() && Gap(gap) && IsNoun(noun, routine)
    requires EndsNormal(p) && NoWordIn(Surface(p))
    requires IsName(schemaName) && IsName(objectName) && NoBracketNext(tail)
    ensures DeclaredIn(p + (verb.Text() + (gap + noun) + TwoNames(schemaName, objectName, tail)))
         == [Identity(routine, schemaName, objectName)] + DeclaredIn(tail)
  {
    hide Surface, FindDeclarations, Gap, IsNoun, FoundAfter, EndsNormal, Bracketed, Verb.Valid, Verb.Text;
    DeclaredAfterHead(p, verb, gap, noun, TwoNames(schemaName, objectName, tail), routine);
    SurfaceOfNames(schemaName, objectName, tail);
    SurfaceKeepsNext(tail);
    FoundNames(schemaName, objectName, Surface(tail), routine);
  }

  const CREATE_TABLE := "CREATE TABLE"

  lemma TableKind(rest: string)
    requires NameTail(rest).Some?
    ensures KindTail("TABLE" + rest) == Shifted(NameTail(rest), 5, Table)
  {
    hide NameTail;
    assert ("TABLE" + rest)[5..] == rest;
  }

  lemma CreateTableText(rest: string)
    ensures CREATE_TABLE + rest == "CREATE" + (" " + ("TABLE" + rest))
  {
  }

  lemma TableMatch(rest: string)
    requires NameTail(rest).Some?
    ensures MatchDeclaration(CREATE_TABLE + rest) == Shifted(NameTail(rest), 12, Table)
  {
    hide NameTail, KindTail, VerbTail, CreateOrAlterEnd;
    var x := "TABLE" + rest;
    CreateTableText(rest);
    TableKind(rest);
    VerbTailOf("CREATE", " ", x);
    NoOr(x);
  }

  lemma NoOr(x: string)
    requires x != "" && x[0] == 'T'
    ensures CreateOrAlterEnd("CREATE" + (" " + x)) == None
  {
    var s := "CREATE" + (" " + x);
    assert s[6..] == " " + x;
    GapIs(" ", x);
    NoKeyword(x, "OR");
  }

  /** The same of a table. */
  lemma BracketedTableIsFound(schemaName: string, objectName: string, tail: string)
    requires IsName(schemaName) && IsName(objectName) && NoBracketNext(tail)
    ensures DeclaredIn(CREATE_TABLE + TwoNames(schemaName, objectName, tail))
         == [Identity(Table, schemaName, objectName)] + DeclaredIn(tail)
  {
    hide Surface, FindDeclarations, FoundAfter, Bracketed, NameTail, MatchDeclaration, TwoNames;
    PlainPrefix(CREATE_TABLE, TwoNames(schemaName, objectName, tail));
    SurfaceOfNames(schemaName, objectName, tail);
    SurfaceKeepsNext(tail);
    NamesOf(schemaName, objectName, Surface(tail));
    TableMatch(TwoNames(schemaName, objectName, Surface(tail)));
    FoundMatch(CREATE_TABLE, TwoNames(schemaName, objectName, Surface(tail)), Table);
    FoundNames(schemaName, objectName, Surface(tail), Table);
  }

  /** So a table's file is identified exactly when nothing after its name declares another object. */
  lemma TableIsIdentified(schemaName: string, objectName: string, tail: string)
    requires IsName(schemaName) && IsName(objectName) && NoBracketNext(tail)
    ensures DetectIdentity(CREATE_TABLE + TwoNames(schemaName, objectName, tail))
         == if DeclaredIn(tail) == [] then Ok(Identity(Table, schemaName, objectName)) else Err(COUNT_INVALID)
  {
    hide DeclaredIn, TwoNames;
    BracketedTableIsFound(schemaName, objectName, tail);
  }
}
