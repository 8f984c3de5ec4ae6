/** Which SQL object a text declares: the declaration pattern matched over the surface. */
module Declarations {
  import opened Text
  import opened DeclarationLexer

  datatype ObjectType = Table | Procedure | Function

  datatype Identity = Identity(objectType: ObjectType, schemaName: string, objectName: string)

  // ----- Pieces of the pattern -----------------------------------------------------------

  /** `\s*`, greedy. What follows it in the pattern never starts with a space. */
  function SpaceRun(s: string): (n: nat)
    ensures n <= |s|
  {
    if s != "" && IsSpace(s[0]) then 1 + SpaceRun(s[1..]) else 0
  }

  predicate KeywordAt(s: string, keyword: string) {
    |keyword| <= |s| && forall i :: 0 <= i < |keyword| ==> UpperChar(s[i]) == keyword[i]
  }

  predicate IsNameChar(c: char) {
    IsWordChar(c) || c == '$' || c == '#' || c == '@'
  }

  function NameRun(s: string): (n: nat)
    ensures n <= |s|
  {
    if s != "" && IsNameChar(s[0]) then 1 + NameRun(s[1..]) else 0
  }

  /** The rest of a bracketed name. The pattern takes as many characters and doubled brackets as
      it can and gives doubled brackets back while no closing bracket follows. */
  function BracketEnd(s: string, seen: bool): (r: Option<nat>)
    ensures r.Some? ==> 1 <= r.value <= |s|
  {
    if s == "" || s[0] == '\r' || s[0] == '\n' then None
    else if s[0] != ']' then Advance(BracketEnd(s[1..], true), 1)
    else if |s| > 1 && s[1] == ']' && BracketEnd(s[2..], true).Some? then
      Advance(BracketEnd(s[2..], true), 2)
    else if seen then Some(1)
    else None
  }

  function Advance(r: Option<nat>, n: nat): Option<nat> {
    match r
    case None => None
    case Some(m) => Some(n + m)
  }

  /** One identifier of the pattern: bracketed or plain. */
  function IdentifierEnd(s: string): (r: Option<nat>)
    ensures r.Some? ==> 1 <= r.value <= |s|
  {
    if s == "" then None
    else if s[0] == '[' then Advance(BracketEnd(s[1..], false), 1)
    else if IsLetter(s[0]) || s[0] == '_' then Some(1 + NameRun(s[1..]))
    else None
  }

  /** `\s*\.\s*identifier`: how far it reaches and the identifier. */
  function SecondPart(s: string): (r: Option<(nat, string)>)
    ensures r.Some? ==> r.value.0 <= |s|
  {
    var a := SpaceRun(s);
    if a == |s| || s[a] != '.' then None else
    var b := a + 1 + SpaceRun(s[a + 1..]);
    match IdentifierEnd(s[b..])
    case None => None
    case Some(n) => Some((b + n, s[b..b + n]))
  }

  /** A match: its length, and the names as written. */
  datatype Names = Names(len: nat, first: string, second: Option<string>)
  datatype Declared = Declared(objectType: ObjectType, names: Names)

  function NamesAfter(names: Names, n: nat): Names {
    names.(len := n + names.len)
  }

  /** `\s+identifier(\s*\.\s*identifier)?` */
  function NameTail(s: string): (r: Option<Names>)
    ensures r.Some? ==> 1 <= r.value.len <= |s|
  {
    var n := SpaceRun(s);
    if n == 0 then None else
    match IdentifierEnd(s[n..])
    case None => None
    case Some(k) =>
      match SecondPart(s[n + k..])
      case None => Some(Names(n + k, s[n..n + k], None))
      case Some((m, second)) => Some(Names(n + k + m, s[n..n + k], Some(second)))
  }

  function Named(s: string, keyword: nat, objectType: ObjectType): (r: Option<Declared>)
    requires keyword <= |s|
    ensures r.Some? ==> keyword < r.value.names.len <= |s|
  {
    match NameTail(s[keyword..])
    case None => None
    case Some(names) => Some(Declared(objectType, NamesAfter(names, keyword)))
  }

  /** From the kind on, alternatives tried in order. */
  function KindTail(s: string): (r: Option<Declared>)
    ensures r.Some? ==> 1 <= r.value.names.len <= |s|
  {
    if KeywordAt(s, "TABLE") && Named(s, 5, Table).Some? then Named(s, 5, Table)
    else if KeywordAt(s, "PROCEDURE") && Named(s, 9, Procedure).Some? then Named(s, 9, Procedure)
    else if KeywordAt(s, "PROC") && Named(s, 4, Procedure).Some? then Named(s, 4, Procedure)
    else if KeywordAt(s, "FUNCTION") then Named(s, 8, Function)
    else None
  }

  /** `\s+` and the rest of the pattern, after a verb of length `verb`. */
  function VerbTail(s: string, verb: nat): (r: Option<Declared>)
    requires verb <= |s|
    ensures r.Some? ==> 1 <= r.value.names.len <= |s|
  {
    var n := SpaceRun(s[verb..]);
    if n == 0 then None else
    match KindTail(s[verb + n..])
    case None => None
    case Some(d) => Some(d.(names := NamesAfter(d.names, verb + n)))
  }

  /** `\s+keyword` */
  function GapKeywordEnd(s: string, keyword: string): (r: Option<nat>)
    ensures r.Some? ==> r.value <= |s|
  {
    var n := SpaceRun(s);
    if n == 0 || !KeywordAt(s[n..], keyword) then None else Some(n + |keyword|)
  }

  /** `CREATE\s+OR\s+ALTER` */
  function CreateOrAlterEnd(s: string): (r: Option<nat>)
    ensures r.Some? ==> 6 <= r.value <= |s|
  {
    if !KeywordAt(s, "CREATE") then None else
    match GapKeywordEnd(s[6..], "OR")
    case None => None
    case Some(m) => Advance(GapKeywordEnd(s[6 + m..], "ALTER"), 6 + m)
  }

  /** The whole pattern at the start of `s`, its verbs tried in order. */
  function MatchDeclaration(s: string): (r: Option<Declared>)
    ensures r.Some? ==> 1 <= r.value.names.len <= |s|
  {
    var full := CreateOrAlterEnd(s);
    if full.Some? && VerbTail(s, full.value).Some? then VerbTail(s, full.value)
    else if KeywordAt(s, "CREATE") && VerbTail(s, 6).Some? then VerbTail(s, 6)
    else if KeywordAt(s, "ALTER") then VerbTail(s, 5)
    else None
  }

  // ----- Identities ----------------------------------------------------------------------

  function UndoubleBrackets(s: string): string {
    if s == "" then ""
    else if StartsPair(s, ']', ']') then "]" + UndoubleBrackets(s[2..])
    else [s[0]] + UndoubleBrackets(s[1..])
  }

  function Identifier(value: string): string {
    if |value| > 1 && value[0] == '[' && value[|value| - 1] == ']'
    then UndoubleBrackets(value[1..|value| - 1])
    else value
  }

  function IdentityOf(d: Declared): Identity {
    match d.names.second
    case None => Identity(d.objectType, "dbo", Identifier(d.names.first))
    case Some(second) => Identity(d.objectType, Identifier(d.names.first), Identifier(second))
  }

  /** All leftmost non-overlapping matches; a match starts at a word boundary. */
  function FindDeclarations(s: string, afterWord: bool): seq<Identity>
    decreases |s|
  {
    if s == "" then []
    else if !afterWord && MatchDeclaration(s).Some? then
      var d := MatchDeclaration(s).value;
      [IdentityOf(d)] + FindDeclarations(s[d.names.len..], IsWordChar(s[d.names.len - 1]))
    else FindDeclarations(s[1..], IsWordChar(s[0]))
  }

  /** The objects a text declares, quoted and commented text aside. */
  function DeclaredIn(content: string): seq<Identity> {
    FindDeclarations(Surface(content), false)
  }

  const COUNT_INVALID := "FOLDER_SQL_OBJECT_COUNT_INVALID"

  function DetectIdentity(content: string): Result<Identity> {
    var found := DeclaredIn(content);
    if |found| != 1 then Err(COUNT_INVALID) else Ok(found[0])
  }
}
