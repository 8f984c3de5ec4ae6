/** The leading declaration of a stored routine: where it begins and how it is rewritten. */
module RoutineNormalization {
  import opened Text
  import opened DeclarationLexer
  import opened Declarations

  // ----- The comment skipper -------------------------------------------------------------

  /** Leading spaces and comments. Comments are tokens of the lexer: the two scanners agree. */
  function LeadingTrivia(s: string): (n: nat)
    ensures n <= |s|
    decreases |s|
  {
    if s == "" then 0
    else if IsSpace(s[0]) then 1 + LeadingTrivia(s[1..])
    else if StartsPair(s, '-', '-') || StartsPair(s, '/', '*') then
      var n := TokenSpan(s).len;
      n + LeadingTrivia(s[n..])
    else 0
  }

  function BomLength(s: string): (n: nat)
    ensures n <= |s|
  {
    if s != "" && s[0] == '\U{FEFF}' then 1 else 0
  }

  function Offset(definition: string): (n: nat)
    ensures n <= |definition|
  {
    var bom := BomLength(definition);
    bom + LeadingTrivia(definition[bom..])
  }

  lemma TriviaUnfold(s: string)
    ensures LeadingTrivia(s) ==
            if s == "" then 0
            else if IsSpace(s[0]) then 1 + LeadingTrivia(s[1..])
            else if StartsPair(s, '-', '-') || StartsPair(s, '/', '*') then
              TokenSpan(s).len + LeadingTrivia(s[TokenSpan(s).len..])
            else 0
  {
  }

  /** `definition.find("\n", from)` */
  method FindNewline(definition: string, from: nat) returns (index: int)
    requires from <= |definition|
    ensures var line := LineSpan(definition[from..]);
            index == if line.closed then from + line.len - 1 else -1
  {
    index := from;
    while index < |definition|
      invariant from <= index <= |definition|
      invariant LineSpan(definition[from..]) == LineSpan(definition[index..]).After(index - from)
    {
      if definition[index] == '\n' {
        return;
      }
      index := index + 1;
    }
    index := -1;
  }

  lemma LineComment(s: string)
    requires StartsPair(s, '-', '-')
    ensures TokenSpan(s) == LineSpan(s[2..]).After(2)
  {
  }

  lemma BlockComment(s: string)
    requires StartsPair(s, '/', '*')
    ensures TokenSpan(s) == DepthSpan(s[2..], 1).After(2)
  {
    DepthIsNesting(s[2..], 1);
  }

  lemma PairIs(s: string, index: nat)
    requires index < |s|
    ensures forall first, second ::
      StartsPair(s[index..], first, second) <==>
      index + 1 < |s| && s[index] == first && s[index + 1] == second
  {
  }

  /** `definition[index:index + 2]` */
  function Pair(s: string, index: nat): string
    requires index < |s|
  {
    if index + 1 < |s| then s[index..index + 2] else s[index..]
  }

  /** What a turn of the inner loop consumes. */
  lemma DepthStep(s: string, index: nat, depth: nat)
    requires index < |s| && depth > 0
    ensures Pair(s, index) == "/*" || Pair(s, index) == "*/" ==> index + 2 <= |s|
    ensures DepthSpan(s[index..], depth).len ==
            if Pair(s, index) == "/*" then 2 + DepthSpan(s[index + 2..], depth + 1).len
            else if Pair(s, index) == "*/" then
              2 + (if depth == 1 then 0 else DepthSpan(s[index + 2..], depth - 1).len)
            else 1 + DepthSpan(s[index + 1..], depth).len
  {
    PairIs(s, index);
    DropDrop(s, index, 1);
    if index + 1 < |s| {
      assert s[index..index + 2] == [s[index], s[index + 1]];
      DropDrop(s, index, 2);
    }
    DepthUnfold(s[index..], depth);
  }

  /** The offset of the first token that is no byte-order mark, space or comment. */
  method DeclarationOffset(definition: string) returns (index: nat)
    ensures index == Offset(definition)
  {
    hide LeadingTrivia, TokenSpan, LineSpan, DepthSpan, Pair;
    index := BomLength(definition);
    while index < |definition|
      invariant index <= |definition|
      invariant Offset(definition) == index + LeadingTrivia(definition[index..])
    {
      var current := definition[index];
      ghost var start, rest := index, definition[index..];
      TriviaUnfold(rest);
      if IsSpace(current) {
        index := index + 1;
        DropDrop(definition, start, 1);
        continue;
      }
      PairIs(definition, index);
      var following := if index + 1 < |definition| then definition[index + 1..index + 2] else "";
      if current == '-' && following == "-" {
        LineComment(rest);
        DropDrop(definition, start, 2);
        DropDrop(definition, start, TokenSpan(rest).len);
        var lineEnd := FindNewline(definition, index + 2);
        index := if lineEnd == -1 then |definition| else lineEnd + 1;
        continue;
      }
      if current == '/' && following == "*" {
        BlockComment(rest);
        DropDrop(definition, start, 2);
        DropDrop(definition, start, TokenSpan(rest).len);
        var depth := 1;
        index := index + 2;
        while index < |definition| && depth != 0
          invariant start < index <= |definition| && depth >= 0
          invariant start + TokenSpan(rest).len ==
                    index + if depth == 0 then 0 else DepthSpan(definition[index..], depth).len
        {
          DepthStep(definition, index, depth);
          var pair := Pair(definition, index);
          if pair == "/*" {
            depth := depth + 1;
            index := index + 2;
          } else if pair == "*/" {
            depth := depth - 1;
            index := index + 2;
          } else {
            index := index + 1;
          }
        }
        continue;
      }
      break;
    }
  }

  // ----- Rewriting the declaration -------------------------------------------------------

  function Nouns(routine: ObjectType): seq<string> {
    if routine == Procedure then ["PROCEDURE", "PROC"] else ["FUNCTION"]
  }

  predicate AtWordEnd(s: string) {
    s == "" || !IsWordChar(s[0])
  }

  /** The first of the nouns that stands at `s` as a whole word. */
  function NounEnd(s: string, nouns: seq<string>): (r: Option<nat>)
    ensures r.Some? ==> r.value <= |s|
  {
    if nouns == [] then None
    else if KeywordAt(s, nouns[0]) && AtWordEnd(s[|nouns[0]|..]) then Some(|nouns[0]|)
    else NounEnd(s, nouns[1..])
  }

  function VerbNounEnd(s: string, verb: nat, routine: ObjectType): (r: Option<nat>)
    requires verb <= |s|
    ensures r.Some? ==> r.value <= |s|
  {
    var n := SpaceRun(s[verb..]);
    if n == 0 then None else Advance(NounEnd(s[verb + n..], Nouns(routine)), verb + n)
  }

  /** The routine declaration pattern at the start of `s`, its verbs tried in order. */
  function RoutineEnd(s: string, routine: ObjectType): (r: Option<nat>)
    ensures r.Some? ==> r.value <= |s|
  {
    var full := CreateOrAlterEnd(s);
    if full.Some? && VerbNounEnd(s, full.value, routine).Some? then VerbNounEnd(s, full.value, routine)
    else if KeywordAt(s, "CREATE") && VerbNounEnd(s, 6, routine).Some? then VerbNounEnd(s, 6, routine)
    else if KeywordAt(s, "ALTER") then VerbNounEnd(s, 5, routine)
    else None
  }

  function Canonical(routine: ObjectType): string {
    "CREATE OR ALTER" + " " + Nouns(routine)[0]
  }

  function UnsupportedCode(routine: ObjectType): string {
    if routine == Procedure then "PROCEDURE_DEFINITION_HEADER_UNSUPPORTED"
    else "FUNCTION_DEFINITION_HEADER_UNSUPPORTED"
  }

  /** Rewrites the leading declaration and keeps every other character. */
  function Normalize(definition: string, routine: ObjectType): Result<string>
    requires routine != Table
  {
    var start := Offset(definition);
    match RoutineEnd(definition[start..], routine)
    case None => Err(UnsupportedCode(routine))
    case Some(n) => Ok(definition[..start] + Canonical(routine) + definition[start + n..])
  }
}
