/** The one-line metadata header of a managed SQL file, and its way through JSON and back. */
module ManagedHeader {
  import opened Text
  import opened Json
  import opened Declarations

  datatype Engine = SqlServer | MySql | MariaDb | Oracle | Postgres
  datatype Status = Confirmed | Unresolved
  datatype Source = Owner | Rule | Unknown

  /** `header_version` is always 1 and `output_format_version` always "2": both are literals. */
  datatype Header = Header(
    objectId: string,
    engine: Engine,
    schemaName: string,
    objectName: string,
    objectType: ObjectType,
    context: Option<string>,
    description: Option<string>,
    tags: seq<string>,
    evidence: seq<string>,
    status: Status,
    source: Source,
    sourceFingerprint: Option<string>,
    contentHash: string)

  // ----- Names of the closed enumerations ------------------------------------------------

  function EngineName(e: Engine): string {
    match e
    case SqlServer => "sqlserver"
    case MySql => "mysql"
    case MariaDb => "mariadb"
    case Oracle => "oracle"
    case Postgres => "postgres"
  }

  function EngineOf(s: string): (r: Option<Engine>)
    ensures r.Some? ==> EngineName(r.value) == s
  {
    if s == "sqlserver" then Some(SqlServer)
    else if s == "mysql" then Some(MySql)
    else if s == "mariadb" then Some(MariaDb)
    else if s == "oracle" then Some(Oracle)
    else if s == "postgres" then Some(Postgres)
    else None
  }

  function TypeName(t: ObjectType): string {
    match t
    case Table => "table"
    case Procedure => "procedure"
    case Function => "function"
  }

  function TypeOf(s: string): (r: Option<ObjectType>)
    ensures r.Some? ==> TypeName(r.value) == s
  {
    if s == "table" then Some(Table)
    else if s == "procedure" then Some(Procedure)
    else if s == "function" then Some(Function)
    else None
  }

  function StatusName(s: Status): string {
    if s == Confirmed then "confirmed" else "unresolved"
  }

  function StatusOf(s: string): (r: Option<Status>)
    ensures r.Some? ==> StatusName(r.value) == s
  {
    if s == "confirmed" then Some(Confirmed) else if s == "unresolved" then Some(Unresolved) else None
  }

  function SourceName(s: Source): string {
    match s
    case Owner => "owner"
    case Rule => "rule"
    case Unknown => "unknown"
  }

  function SourceOf(s: string): (r: Option<Source>)
    ensures r.Some? ==> SourceName(r.value) == s
  {
    if s == "owner" then Some(Owner)
    else if s == "rule" then Some(Rule)
    else if s == "unknown" then Some(Unknown)
    else None
  }

  lemma NamesRoundTrip()
    ensures forall e :: EngineOf(EngineName(e)) == Some(e)
    ensures forall t :: TypeOf(TypeName(t)) == Some(t)
    ensures forall s :: StatusOf(StatusName(s)) == Some(s)
    ensures forall s :: SourceOf(SourceName(s)) == Some(s)
  {
  }

  // ----- Validity ------------------------------------------------------------------------

  /** Code-point order, as Python compares strings. */
  predicate Less(a: string, b: string) {
    b != "" && (a == "" || a[0] < b[0] || (a[0] == b[0] && Less(a[1..], b[1..])))
  }

  /** Sorted without repetition. */
  predicate SortedUnique(items: seq<string>) {
    forall i, j :: 0 <= i < j < |items| ==> Less(items[i], items[j])
  }

  predicate IsSafeChar(c: char) {
    'a' <= c <= 'z' || IsDigit(c) || c == '_' || c == '-'
  }

  /** `[a-z][a-z0-9_-]{0,63}` */
  predicate IsSafeValue(s: string) {
    1 <= |s| <= 64 && 'a' <= s[0] <= 'z' && All(s, IsSafeChar)
  }

  predicate IsLowerHex(c: char) {
    IsDigit(c) || 'a' <= c <= 'f'
  }

  /** `sha256:[0-9a-f]{64}` */
  predicate IsSha256(s: string) {
    |s| == 71 && s[..7] == "sha256:" && All(s[7..], IsLowerHex)
  }

  predicate IsSingleLine(s: string) {
    s != "" && forall i :: 0 <= i < |s| ==> s[i] != '\0' && s[i] != '\r' && s[i] != '\n'
  }

  function ObjectId(objectType: ObjectType, schemaName: string, objectName: string): string {
    TypeName(objectType) + ":" + schemaName + "." + objectName
  }

  /** An unresolved object guesses nothing; a confirmed one names its context and its source. */
  predicate Coherent(status: Status, source: Source, context: Option<string>, tags: seq<string>) {
    if status == Unresolved then context == None && tags == [] && source == Unknown
    else context.Some? && source != Unknown
  }

  predicate Valid(h: Header) {
    && 1 <= |h.objectId| <= 512
    && 1 <= |h.schemaName| <= 128
    && 1 <= |h.objectName| <= 256
    && (h.description.Some? ==> |h.description.value| <= 2000)
    && |h.tags| <= 64 && |h.evidence| <= 64
    && h.objectId == ObjectId(h.objectType, h.schemaName, h.objectName)
    && (h.context.Some? ==> IsSafeValue(h.context.value))
    && SortedUnique(h.tags) && (forall i :: 0 <= i < |h.tags| ==> IsSafeValue(h.tags[i]))
    && SortedUnique(h.evidence) && (forall i :: 0 <= i < |h.evidence| ==> IsSingleLine(h.evidence[i]))
    && (h.sourceFingerprint.Some? ==> IsSha256(h.sourceFingerprint.value))
    && IsSha256(h.contentHash)
    && Coherent(h.status, h.source, h.context, h.tags)
  }

  // ----- To and from JSON ----------------------------------------------------------------

  function OptionalJson(s: Option<string>): Json {
    match s
    case None => Null
    case Some(text) => Str(text)
  }

  function ListJson(items: seq<string>): Json {
    Arr(seq(|items|, i requires 0 <= i < |items| => Str(items[i])))
  }

  const K_SOURCE := "classification_source"
  const K_STATUS := "classification_status"
  const K_HASH := "content_hash"
  const K_CONTEXT := "context"
  const K_DESCRIPTION := "description"
  const K_ENGINE := "engine"
  const K_EVIDENCE := "evidence"
  const K_VERSION := "header_version"
  const K_ID := "object_id"
  const K_NAME := "object_name"
  const K_TYPE := "object_type"
  const K_FORMAT := "output_format_version"
  const K_SCHEMA := "schema_name"
  const K_FINGERPRINT := "source_fingerprint"
  const K_TAGS := "tags"

  /** The dumped model, its keys sorted. */
  function Members(h: Header): seq<(string, Json)> {
    [ (K_SOURCE, Str(SourceName(h.source))),
      (K_STATUS, Str(StatusName(h.status))),
      (K_HASH, Str(h.contentHash)),
      (K_CONTEXT, OptionalJson(h.context)),
      (K_DESCRIPTION, OptionalJson(h.description)),
      (K_ENGINE, Str(EngineName(h.engine))),
      (K_EVIDENCE, ListJson(h.evidence)),
      (K_VERSION, Int(1)),
      (K_ID, Str(h.objectId)),
      (K_NAME, Str(h.objectName)),
      (K_TYPE, Str(TypeName(h.objectType))),
      (K_FORMAT, Str("2")),
      (K_SCHEMA, Str(h.schemaName)),
      (K_FINGERPRINT, OptionalJson(h.sourceFingerprint)),
      (K_TAGS, ListJson(h.tags)) ]
  }

  const KEYS: seq<string> :=
    [K_SOURCE, K_STATUS, K_HASH, K_CONTEXT, K_DESCRIPTION, K_ENGINE, K_EVIDENCE, K_VERSION, K_ID,
     K_NAME, K_TYPE, K_FORMAT, K_SCHEMA, K_FINGERPRINT, K_TAGS]

  /** The last member with the key counts. */
  function Lookup(members: seq<(string, Json)>, key: string): Option<Json> {
    if members == [] then None
    else if members[|members| - 1].0 == key then Some(members[|members| - 1].1)
    else Lookup(members[..|members| - 1], key)
  }

  function TextOf(j: Option<Json>): Option<string> {
    if j.Some? && j.value.Str? then Some(j.value.s) else None
  }

  /** A field that may be null or absent. */
  function OptionalOf(j: Option<Json>): Option<Option<string>> {
    match j
    case None => Some(None)
    case Some(Null) => Some(None)
    case Some(Str(s)) => Some(Some(s))
    case _ => None
  }

  function ListOf(j: Option<Json>): Option<seq<string>> {
    match j
    case None => Some([])
    case Some(Arr(items)) =>
      if forall i :: 0 <= i < |items| ==> items[i].Str?
      then Some(seq(|items|, i requires 0 <= i < |items| => items[i].s))
      else None
    case _ => None
  }

  function Then<T, U>(o: Option<T>, f: T -> Option<U>): Option<U> {
    match o
    case None => None
    case Some(x) => f(x)
  }

  predicate VersionsMatch(members: seq<(string, Json)>) {
    && (Lookup(members, K_VERSION) == None || Lookup(members, K_VERSION) == Some(Int(1)))
    && Lookup(members, K_FORMAT) == Some(Str("2"))
  }

  /** Field by field; unknown keys are forbidden and the result must be valid. */
  function FromMembers(members: seq<(string, Json)>): (r: Option<Header>)
    ensures r.Some? ==> Valid(r.value)
  {
    if !(forall i :: 0 <= i < |members| ==> members[i].0 in KEYS) || !VersionsMatch(members) then None else
    match (TextOf(Lookup(members, K_ID)), Then(TextOf(Lookup(members, K_ENGINE)), EngineOf),
           TextOf(Lookup(members, K_SCHEMA)), TextOf(Lookup(members, K_NAME)),
           Then(TextOf(Lookup(members, K_TYPE)), TypeOf))
    case (Some(id), Some(engine), Some(schema), Some(name), Some(objectType)) =>
      (match (OptionalOf(Lookup(members, K_CONTEXT)), OptionalOf(Lookup(members, K_DESCRIPTION)),
              ListOf(Lookup(members, K_TAGS)), ListOf(Lookup(members, K_EVIDENCE)))
       case (Some(context), Some(description), Some(tags), Some(evidence)) =>
         (match (Then(TextOf(Lookup(members, K_STATUS)), StatusOf), Then(TextOf(Lookup(members, K_SOURCE)), SourceOf),
                 OptionalOf(Lookup(members, K_FINGERPRINT)), TextOf(Lookup(members, K_HASH)))
          case (Some(status), Some(source), Some(fingerprint), Some(hash)) =>
            var h := Header(id, engine, schema, name, objectType, context, description, tags, evidence,
                            status, source, fingerprint, hash);
            if Valid(h) then Some(h) else None
          case _ => None)
       case _ => None)
    case _ => None
  }

  lemma KeysDistinct()
    ensures |KEYS| == 15
    ensures forall i, j :: 0 <= i < j < 15 ==> KEYS[i] != KEYS[j]
  {
  }

  lemma {:induction false} LookupAt(members: seq<(string, Json)>, i: nat)
    requires i < |members|
    requires forall j :: i < j < |members| ==> members[j].0 != members[i].0
    ensures Lookup(members, members[i].0) == Some(members[i].1)
  {
    if i < |members| - 1 {
      LookupAt(members[..|members| - 1], i);
    }
  }

  lemma MemberKeys(h: Header)
    ensures |Members(h)| == 15 && forall i :: 0 <= i < 15 ==> Members(h)[i].0 == KEYS[i]
  {
  }

  lemma LookupMember(h: Header, i: nat)
    requires i < 15
    ensures |KEYS| == 15 && |Members(h)| == 15
    ensures Lookup(Members(h), KEYS[i]) == Some(Members(h)[i].1)
  {
    hide Members, Lookup;
    MemberKeys(h);
    KeysDistinct();
    LookupAt(Members(h), i);
  }

  lemma Lookups(h: Header)
    ensures var m := Members(h);
      && Lookup(m, K_SOURCE) == Some(Str(SourceName(h.source)))
      && Lookup(m, K_STATUS) == Some(Str(StatusName(h.status)))
      && Lookup(m, K_HASH) == Some(Str(h.contentHash))
      && Lookup(m, K_CONTEXT) == Some(OptionalJson(h.context))
      && Lookup(m, K_DESCRIPTION) == Some(OptionalJson(h.description))
      && Lookup(m, K_ENGINE) == Some(Str(EngineName(h.engine)))
      && Lookup(m, K_EVIDENCE) == Some(ListJson(h.evidence))
      && Lookup(m, K_VERSION) == Some(Int(1))
      && Lookup(m, K_ID) == Some(Str(h.objectId))
      && Lookup(m, K_NAME) == Some(Str(h.objectName))
      && Lookup(m, K_TYPE) == Some(Str(TypeName(h.objectType)))
      && Lookup(m, K_FORMAT) == Some(Str("2"))
      && Lookup(m, K_SCHEMA) == Some(Str(h.schemaName))
      && Lookup(m, K_FINGERPRINT) == Some(OptionalJson(h.sourceFingerprint))
      && Lookup(m, K_TAGS) == Some(ListJson(h.tags))
  {
    hide Lookup, SourceName, StatusName, EngineName, TypeName, OptionalJson, ListJson;
    LookupMember(h, 0);
    LookupMember(h, 1);
    LookupMember(h, 2);
    LookupMember(h, 3);
    LookupMember(h, 4);
    LookupMember(h, 5);
    LookupMember(h, 6);
    LookupMember(h, 7);
    LookupMember(h, 8);
    LookupMember(h, 9);
    LookupMember(h, 10);
    LookupMember(h, 11);
    LookupMember(h, 12);
    LookupMember(h, 13);
    LookupMember(h, 14);
  }

  lemma ListRoundTrip(items: seq<string>)
    ensures ListOf(Some(ListJson(items))) == Some(items)
  {
    var back := ListOf(Some(ListJson(items)));
    assert back.Some? && back.value == items;
  }

  /** Reading back a dumped header yields that header, or nothing when it is not valid. */
  lemma MembersRoundTrip(h: Header)
    ensures FromMembers(Members(h)) == if Valid(h) then Some(h) else None
  {
    hide Lookup, Members, Valid, SourceName, StatusName, EngineName, TypeName, SourceOf, StatusOf, EngineOf, TypeOf,
         ListJson, ListOf;
    Lookups(h);
    NamesRoundTrip();
    ListRoundTrip(h.tags);
    ListRoundTrip(h.evidence);
    MemberKeys(h);
  }

  // ----- The header line -----------------------------------------------------------------

  const HEADER_PREFIX := "-- sqlctx-context: "
  const HEADER_MISSING := "MANAGED_SQL_HEADER_MISSING"
  const HEADER_INVALID := "MANAGED_SQL_HEADER_INVALID"

  function Render(h: Header, body: string): string {
    HEADER_PREFIX + Dump(Obj(Members(h))) + "\n" + body
  }

  /** Where the first line break stands; the length of the text when there is none. */
  function LineEnd(s: string): (n: nat)
    ensures n <= |s|
  {
    if s == "" || s[0] == '\n' then 0 else 1 + LineEnd(s[1..])
  }

  function HeaderOf(line: string): Option<Header> {
    match Load(line)
    case Some(Obj(members)) => FromMembers(members)
    case _ => None
  }

  function Parse(content: string): Result<(Header, string)> {
    var n := LineEnd(content);
    if n == |content| || !Starts(content[..n], HEADER_PREFIX) then Err(HEADER_MISSING) else
    match HeaderOf(content[|HEADER_PREFIX|..n])
    case None => Err(HEADER_INVALID)
    case Some(h) => Ok((h, content[n + 1..]))
  }

  lemma {:induction false} LineEndOf(line: string, rest: string)
    requires forall i :: 0 <= i < |line| ==> line[i] != '\n'
    ensures LineEnd(line + "\n" + rest) == |line|
  {
    if line == "" {
      assert (line + "\n" + rest)[0] == '\n';
    } else {
      assert (line + "\n" + rest)[1..] == line[1..] + "\n" + rest;
      LineEndOf(line[1..], rest);
    }
  }

  /** For every valid header and every body, parsing the rendered text returns exactly both; for
      an invalid header it reports the header as invalid. */
  lemma HeaderRoundTrip(h: Header, body: string)
    ensures Parse(Render(h, body)) == if Valid(h) then Ok((h, body)) else Err(HEADER_INVALID)
  {
    hide Load, Dump, Members, Valid, FromMembers, LineEnd;
    var json := Dump(Obj(Members(h)));
    var line := HEADER_PREFIX + json;
    LineEndOf(line, body);
    LoadDump(Obj(Members(h)));
    MembersRoundTrip(h);
    var content := Render(h, body);
    assert content == line + "\n" + body;
    assert content[..|line|] == line;
    assert line[..|HEADER_PREFIX|] == HEADER_PREFIX;
    assert content[|HEADER_PREFIX|..|line|] == json;
    assert content[|line| + 1..] == body;
  }

  /** Whatever a text looked like, the header read from it is valid, so rendering it again gives
      a text that reads the same. */
  lemma ParsedIsStable(content: string)
    requires Parse(content).Ok?
    ensures var (h, body) := Parse(content).value;
            Valid(h) && Parse(Render(h, body)) == Parse(content)
  {
    hide Load, Dump, Members, Valid, LineEnd, FromMembers;
    var (h, body) := Parse(content).value;
    HeaderRoundTrip(h, body);
  }

  // ----- What a header line must hold ----------------------------------------------------

  /** The field is there and is the text that names the value. */
  predicate Says(members: seq<(string, Json)>, key: string, text: string) {
    Lookup(members, key) == Some(Str(text))
  }

  /** The field may be missing or null; otherwise it is the text. */
  predicate MaySay(members: seq<(string, Json)>, key: string, value: Option<string>) {
    match Lookup(members, key)
    case None => value == None
    case Some(j) => j == OptionalJson(value)
  }

  predicate MayList(members: seq<(string, Json)>, key: string, items: seq<string>) {
    match Lookup(members, key)
    case None => items == []
    case Some(j) => j == ListJson(items)
  }

  lemma OptionalIs(j: Option<Json>, value: Option<string>)
    ensures OptionalOf(j) == Some(value) <==>
            match j
            case None => value == None
            case Some(x) => x == OptionalJson(value)
  {
  }

  lemma ListIs(j: Option<Json>, items: seq<string>)
    ensures ListOf(j) == Some(items) <==> match j case None => items == [] case Some(x) => x == ListJson(items)
  {
    if j.Some? && j.value.Arr? {
      var list := ListOf(j);
      if list == Some(items) {
        assert j.value.items == ListJson(items).items;
      }
      if j.value == ListJson(items) {
        assert list.Some? && list.value == items;
      }
    }
  }

  lemma TextIs(j: Option<Json>, text: string)
    ensures TextOf(j) == Some(text) <==> j == Some(Str(text))
  {
  }

  lemma EngineIs(j: Option<Json>, e: Engine)
    ensures Then(TextOf(j), EngineOf) == Some(e) <==> j == Some(Str(EngineName(e)))
  {
    hide EngineName, EngineOf;
    NamesRoundTrip();
  }

  lemma TypeIs(j: Option<Json>, t: ObjectType)
    ensures Then(TextOf(j), TypeOf) == Some(t) <==> j == Some(Str(TypeName(t)))
  {
    hide TypeName, TypeOf;
    NamesRoundTrip();
  }

  lemma StatusIs(j: Option<Json>, s: Status)
    ensures Then(TextOf(j), StatusOf) == Some(s) <==> j == Some(Str(StatusName(s)))
  {
    hide StatusName, StatusOf;
    NamesRoundTrip();
  }

  lemma SourceIs(j: Option<Json>, s: Source)
    ensures Then(TextOf(j), SourceOf) == Some(s) <==> j == Some(Str(SourceName(s)))
  {
    hide SourceName, SourceOf;
    NamesRoundTrip();
  }

  /** The fields as they are read. */
  predicate FieldsAre(members: seq<(string, Json)>, h: Header) {
    && TextOf(Lookup(members, K_ID)) == Some(h.objectId)
    && Then(TextOf(Lookup(members, K_ENGINE)), EngineOf) == Some(h.engine)
    && TextOf(Lookup(members, K_SCHEMA)) == Some(h.schemaName)
    && TextOf(Lookup(members, K_NAME)) == Some(h.objectName)
    && Then(TextOf(Lookup(members, K_TYPE)), TypeOf) == Some(h.objectType)
    && OptionalOf(Lookup(members, K_CONTEXT)) == Some(h.context)
    && OptionalOf(Lookup(members, K_DESCRIPTION)) == Some(h.description)
    && ListOf(Lookup(members, K_TAGS)) == Some(h.tags)
    && ListOf(Lookup(members, K_EVIDENCE)) == Some(h.evidence)
    && Then(TextOf(Lookup(members, K_STATUS)), StatusOf) == Some(h.status)
    && Then(TextOf(Lookup(members, K_SOURCE)), SourceOf) == Some(h.source)
    && OptionalOf(Lookup(members, K_FINGERPRINT)) == Some(h.sourceFingerprint)
    && TextOf(Lookup(members, K_HASH)) == Some(h.contentHash)
  }

  predicate OnlyKnown(members: seq<(string, Json)>) {
    forall i :: 0 <= i < |members| ==> members[i].0 in KEYS
  }

  lemma FieldsRead(members: seq<(string, Json)>, h: Header)
    ensures FromMembers(members) == Some(h) <==>
            OnlyKnown(members) && VersionsMatch(members) && FieldsAre(members, h) && Valid(h)
  {
    hide Lookup, Valid, SourceOf, StatusOf, EngineOf, TypeOf, ListOf, OptionalOf, TextOf, Then, VersionsMatch, KEYS;
  }

  /** Every required field names its value, and the optional ones agree. */
  predicate FieldsSay(members: seq<(string, Json)>, h: Header) {
    && Says(members, K_ID, h.objectId) && Says(members, K_ENGINE, EngineName(h.engine))
    && Says(members, K_SCHEMA, h.schemaName) && Says(members, K_NAME, h.objectName)
    && Says(members, K_TYPE, TypeName(h.objectType))
    && MaySay(members, K_CONTEXT, h.context) && MaySay(members, K_DESCRIPTION, h.description)
    && MayList(members, K_TAGS, h.tags) && MayList(members, K_EVIDENCE, h.evidence)
    && Says(members, K_STATUS, StatusName(h.status)) && Says(members, K_SOURCE, SourceName(h.source))
    && MaySay(members, K_FINGERPRINT, h.sourceFingerprint) && Says(members, K_HASH, h.contentHash)
  }

  lemma FieldsMean(members: seq<(string, Json)>, h: Header)
    ensures FieldsAre(members, h) <==> FieldsSay(members, h)
  {
    hide Lookup, TextOf, Then, OptionalOf, ListOf, ListJson, OptionalJson, EngineName, TypeName, StatusName,
         SourceName;
    TextIs(Lookup(members, K_ID), h.objectId);
    EngineIs(Lookup(members, K_ENGINE), h.engine);
    TextIs(Lookup(members, K_SCHEMA), h.schemaName);
    TextIs(Lookup(members, K_NAME), h.objectName);
    TypeIs(Lookup(members, K_TYPE), h.objectType);
    OptionalIs(Lookup(members, K_CONTEXT), h.context);
    OptionalIs(Lookup(members, K_DESCRIPTION), h.description);
    ListIs(Lookup(members, K_TAGS), h.tags);
    ListIs(Lookup(members, K_EVIDENCE), h.evidence);
    StatusIs(Lookup(members, K_STATUS), h.status);
    SourceIs(Lookup(members, K_SOURCE), h.source);
    OptionalIs(Lookup(members, K_FINGERPRINT), h.sourceFingerprint);
    TextIs(Lookup(members, K_HASH), h.contentHash);
  }

  /** A header is read from members exactly when no unknown field is there, the versions are the known ones, the
      fields say what it holds, and it is valid. */
  lemma ReadExactly(members: seq<(string, Json)>, h: Header)
    ensures FromMembers(members) == Some(h) <==>
            && OnlyKnown(members)
            && (Lookup(members, K_VERSION) == None || Lookup(members, K_VERSION) == Some(Int(1)))
            && Says(members, K_FORMAT, "2")
            && FieldsSay(members, h)
            && Valid(h)
  {
    hide Lookup, Valid, FromMembers, FieldsAre, FieldsSay, OnlyKnown;
    FieldsRead(members, h);
    FieldsMean(members, h);
  }
}
