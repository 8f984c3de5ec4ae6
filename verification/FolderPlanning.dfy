/** Planning a registered folder: reading every SQL file's identity, classifying it and choosing
    its managed destination. */
module FolderPlanning {
  import opened Text
  import opened FileTree
  import opened Declarations
  import opened RoutineNormalization
  import opened RoutineIdentity
  import opened ManagedHeader
  import opened CategoryRules
  import Json

  /** SHA-256 of a text in its `sha256:` form; nothing but its being a function is used. */
  type Sha = string -> string

  const IDENTITY_MISMATCH := "MANAGED_SQL_IDENTITY_MISMATCH"
  const ENGINE_MISMATCH := "MANAGED_SQL_ENGINE_MISMATCH"
  const CONTENT_DRIFT := "MANAGED_SQL_CONTENT_DRIFT"

  // ----- Reading one file ----------------------------------------------------------------

  predicate SameIdentity(h: Header, id: Identity) {
    && h.objectType == id.objectType
    && Casefold(h.schemaName) == Casefold(id.schemaName)
    && Casefold(h.objectName) == Casefold(id.objectName)
  }

  /** A file that already has a header must agree with its own body. */
  function CheckManaged(h: Header, body: string, engine: Engine, sha: Sha): Result<(Header, string)> {
    match DetectIdentity(body)
    case Err(code) => Err(code)
    case Ok(id) =>
      if !SameIdentity(h, id) then Err(IDENTITY_MISMATCH)
      else if h.engine != engine then Err(ENGINE_MISMATCH)
      else if h.contentHash != sha(body) then Err(CONTENT_DRIFT)
      else Ok((h, body))
  }

  /** The body of a file without a header: SQL Server routines are normalised. */
  function AdoptedBody(content: string, engine: Engine, objectType: ObjectType): Result<string> {
    if engine == SqlServer && objectType != Table then Normalize(content, objectType) else Ok(content)
  }

  /** A file without a header gets an unresolved one. */
  function Adopt(content: string, engine: Engine, sha: Sha): Result<(Header, string)> {
    match DetectIdentity(content)
    case Err(code) => Err(code)
    case Ok(id) =>
      match AdoptedBody(content, engine, id.objectType)
      case Err(code) => Err(code)
      case Ok(body) =>
        var h := Header(ObjectId(id.objectType, id.schemaName, id.objectName), engine, id.schemaName,
                        id.objectName, id.objectType, None, None, [], [], Unresolved, Unknown, None, sha(body));
        match Validated(h)
        case Err(code) => Err(code)
        case Ok(valid) => Ok((valid, body))
  }

  function ReadIdentity(content: string, engine: Engine, sha: Sha): Result<(Header, string)> {
    match Parse(content)
    case Ok((h, body)) => CheckManaged(h, body, engine, sha)
    case Err(code) => if code != HEADER_MISSING then Err(HEADER_INVALID) else Adopt(content, engine, sha)
  }

  /** The header read is valid and speaks for the body. */
  lemma ReadIsChecked(content: string, engine: Engine, sha: Sha)
    requires ReadIdentity(content, engine, sha).Ok?
    ensures var (h, body) := ReadIdentity(content, engine, sha).value;
            Valid(h) && CheckManaged(h, body, engine, sha) == Ok((h, body))
  {
    hide Valid, Normalize, DetectIdentity, Parse;
    match Parse(content)
    case Ok((h, body)) =>
      ParsedIsStable(content);
    case Err(_) =>
      var id := DetectIdentity(content).value;
      if engine == SqlServer && id.objectType != Table {
        NormalizationKeepsIdentity(content, id.objectType);
      }
  }

  /** The header speaks for the body: its hash, its engine, and the one object that the body declares, by
      type and, up to case, by both names. */
  predicate SpeaksFor(h: Header, body: string, engine: Engine, sha: Sha) {
    && Names(h, body)
    && h.engine == engine
    && h.contentHash == sha(body)
  }

  predicate Names(h: Header, body: string) {
    && |DeclaredIn(body)| == 1
    && var id := DeclaredIn(body)[0];
       && id.objectType == h.objectType
       && Casefold(id.schemaName) == Casefold(h.schemaName)
       && Casefold(id.objectName) == Casefold(h.objectName)
  }

  /** Whatever file is read, managed or not, the header speaks for the body. */
  lemma ReadSpeaks(content: string, engine: Engine, sha: Sha)
    requires ReadIdentity(content, engine, sha).Ok?
    ensures var (h, body) := ReadIdentity(content, engine, sha).value; Valid(h) && SpeaksFor(h, body, engine, sha)
  {
    hide Valid, Normalize, DeclaredIn, Parse, Casefold;
    match Parse(content)
    case Ok((h, body)) =>
      ParsedIsStable(content);
    case Err(_) =>
      var id := DetectIdentity(content).value;
      if engine == SqlServer && id.objectType != Table {
        NormalizationKeepsIdentity(content, id.objectType);
      }
  }

  /** A managed file is read exactly when its header speaks for its body; what does not agree decides the
      error: the number of objects, the object, the engine, the hash. */
  lemma ManagedIsRead(content: string, engine: Engine, sha: Sha)
    requires Parse(content).Ok?
    ensures var (h, body) := Parse(content).value;
            ReadIdentity(content, engine, sha) ==
            if |DeclaredIn(body)| != 1 then Err(COUNT_INVALID)
            else if !Names(h, body) then Err(IDENTITY_MISMATCH)
            else if h.engine != engine then Err(ENGINE_MISMATCH)
            else if h.contentHash != sha(body) then Err(CONTENT_DRIFT)
            else Ok((h, body))
  {
    hide DeclaredIn, Parse, Casefold;
  }

  /** A file without a header is read as an unresolved object, with its routine brought into normal form on
      SQL Server; a damaged header is never passed over. */
  lemma UnmanagedIsRead(content: string, engine: Engine, sha: Sha)
    requires Parse(content).Err?
    ensures var read := ReadIdentity(content, engine, sha);
            && (Parse(content).code != HEADER_MISSING ==> read == Err(HEADER_INVALID))
            && (read.Ok? ==>
                  && |DeclaredIn(content)| == 1
                  && var id, (h, body) := DeclaredIn(content)[0], read.value;
                     && h.objectType == id.objectType && h.schemaName == id.schemaName && h.objectName == id.objectName
                     && h.status == Unresolved && h.source == Unknown && h.context == None
                     && (if engine == SqlServer && id.objectType != Table
                         then Normalize(content, id.objectType) == Ok(body) else body == content))
  {
    hide DeclaredIn, Parse, Normalize, Valid;
  }

  lemma AdoptedIsValid(id: Identity, engine: Engine, hash: string)
    ensures Valid(Header(ObjectId(id.objectType, id.schemaName, id.objectName), engine, id.schemaName, id.objectName,
                         id.objectType, None, None, [], [], Unresolved, Unknown, None, hash))
       <==> 1 <= |id.schemaName| <= 128 && 1 <= |id.objectName| <= 256 && IsSha256(hash)
  {
    hide IsSha256;
    ObjectIdFits(id);
  }

  /** Such a file is taken in exactly when it declares one object, its routine has a normal form where one is
      asked for, its names fit into a header, and its hash is one. */
  lemma UnmanagedIsTaken(content: string, engine: Engine, sha: Sha)
    requires Parse(content) == Err(HEADER_MISSING)
    ensures ReadIdentity(content, engine, sha).Ok? <==>
            && |DeclaredIn(content)| == 1
            && var id := DeclaredIn(content)[0];
               && 1 <= |id.schemaName| <= 128 && 1 <= |id.objectName| <= 256
               && (if engine == SqlServer && id.objectType != Table
                   then Normalize(content, id.objectType).Ok? && IsSha256(sha(Normalize(content, id.objectType).value))
                   else IsSha256(sha(content)))
  {
    hide DeclaredIn, Parse, Normalize, IsSha256, Valid, ObjectId;
    if |DeclaredIn(content)| == 1 {
      var id := DeclaredIn(content)[0];
      AdoptedIsValid(id, engine, sha(content));
      if engine == SqlServer && id.objectType != Table && Normalize(content, id.objectType).Ok? {
        AdoptedIsValid(id, engine, sha(Normalize(content, id.objectType).value));
      }
    }
  }

  lemma ObjectIdFits(id: Identity)
    ensures |ObjectId(id.objectType, id.schemaName, id.objectName)| <= 11 + |id.schemaName| + |id.objectName|
  {
  }

  /** Text read from a file has no carriage return, and neither has the body taken from it. */
  lemma BodyHasNoReturn(content: string, engine: Engine, sha: Sha)
    requires NoReturn(content) && ReadIdentity(content, engine, sha).Ok?
    ensures NoReturn(ReadIdentity(content, engine, sha).value.1)
  {
    hide Valid, Normalize, DetectIdentity, Parse, NoReturn, AdoptedBody;
    match Parse(content)
    case Ok((h, body)) =>
      ParsedBody(content);
    case Err(_) =>
      var id := DetectIdentity(content).value;
      AdoptedNoReturn(content, engine, id.objectType);
  }

  lemma ParsedBody(content: string)
    requires NoReturn(content) && Parse(content).Ok?
    ensures NoReturn(Parse(content).value.1)
  {
    hide HeaderOf, LineEnd, Json.Starts;
  }

  lemma AdoptedNoReturn(content: string, engine: Engine, objectType: ObjectType)
    requires NoReturn(content) && AdoptedBody(content, engine, objectType).Ok?
    ensures NoReturn(AdoptedBody(content, engine, objectType).value)
  {
    hide RoutineEnd, Offset, Canonical;
    if engine == SqlServer && objectType != Table {
      CanonicalNoReturn(objectType);
    }
  }

  lemma CanonicalNoReturn(routine: ObjectType)
    requires routine != Table
    ensures NoReturn(Canonical(routine))
  {
  }

  // ----- Planning one file ---------------------------------------------------------------

  datatype Resolution = Resolution(context: string, description: Option<string>, tags: seq<string>)

  datatype PlanRequest = PlanRequest(
    engine: Engine,
    rules: Option<seq<CategoryRule>>,
    inPlace: bool,
    resolutions: map<string, Resolution>)

  /** What a plan records of one file. The header and the body make its managed text. */
  datatype Planned = Planned(source: string, content: string, header: Header, body: string, destination: string) {
    function Rendered(): string {
      Render(header, body)
    }
  }

  function TypeFolder(t: ObjectType): string {
    match t
    case Table => "tables"
    case Procedure => "store_procedures"
    case Function => "functions"
  }

  function Category(h: Header): string {
    if h.status == Confirmed && h.context.Some? then h.context.value else "unknowns"
  }

  function Destination(h: Header, name: string): string {
    Category(h) + "/" + TypeFolder(h.objectType) + "/" + name
  }

  function Without(items: seq<string>, x: string): seq<string> {
    if items == [] then []
    else if items[0] == x then Without(items[1..], x)
    else [items[0]] + Without(items[1..], x)
  }

  /** `sorted(set(tags))` */
  function SortedSet(items: seq<string>): seq<string>
    decreases |items|
  {
    if items == [] then [] else
    WithoutShorter(items[1..], items[0]);
    Insert(items[0], SortedSet(Without(items[1..], items[0])))
  }

  lemma WithoutShorter(items: seq<string>, x: string)
    ensures |Without(items, x)| <= |items|
  {
  }

  lemma {:induction false} WithoutIs(items: seq<string>, x: string, y: string)
    ensures y in Without(items, x) <==> y in items && y != x
  {
    if items != [] {
      WithoutIs(items[1..], x, y);
      assert items == [items[0]] + items[1..];
    }
  }

  /** The tags, each once and in order. */
  lemma {:induction false} SortedSetIs(items: seq<string>)
    ensures SortedUnique(SortedSet(items)) && forall x :: x in SortedSet(items) <==> x in items
    decreases |items|
  {
    hide Without, Insert;
    if items != [] {
      var first, rest := items[0], Without(items[1..], items[0]);
      WithoutShorter(items[1..], first);
      SortedSetIs(rest);
      WithoutIs(items[1..], first, first);
      InsertSorted(first, SortedSet(rest));
      forall x ensures x in SortedSet(items) <==> x in items {
        WithoutIs(items[1..], first, x);
        assert x in SortedSet(items) <==> x in multiset(Insert(first, SortedSet(rest)));
        assert items == [first] + items[1..];
      }
    }
  }

  /** An owner's resolution overrides the classification and is validated. */
  function Resolve(h: Header, resolution: Option<Resolution>): Result<Header> {
    match resolution
    case None => Ok(h)
    case Some(r) =>
      Validated(h.(context := Some(r.context), description := r.description, tags := SortedSet(r.tags),
                   status := Confirmed, source := Owner))
  }

  function PlanFile(path: string, content: string, request: PlanRequest, resolution: Option<Resolution>, sha: Sha):
    Result<Planned>
  {
    match ReadIdentity(content, request.engine, sha)
    case Err(code) => Err(code)
    case Ok((h, body)) =>
      match Classify(h, request.rules)
      case Err(code) => Err(code)
      case Ok(classified) =>
        match Resolve(classified, resolution)
        case Err(code) => Err(code)
        case Ok(final) => Ok(Planned(path, content, final, body, Destination(final, Name(path))))
  }

  function TypePart(t: ObjectType): string {
    match t
    case Table => "/tables/"
    case Procedure => "/store_procedures/"
    case Function => "/functions/"
  }

  lemma DestinationIs(h: Header, name: string)
    ensures Destination(h, name)
         == (if h.status == Confirmed && h.context.Some? then h.context.value else "unknowns") + TypePart(h.objectType)
            + name
  {
    FolderIs(h.objectType);
    Associate(Category(h), "/" + TypeFolder(h.objectType) + "/", name);
    assert Category(h) + "/" + TypeFolder(h.objectType) + "/" == Category(h) + ("/" + TypeFolder(h.objectType) + "/");
  }

  lemma FolderIs(t: ObjectType)
    ensures "/" + TypeFolder(t) + "/" == TypePart(t)
  {
  }

  lemma PlaceIs(context: string, t: ObjectType, name: string)
    ensures context + "/" + TypeFolder(t) + "/" + name == context + TypePart(t) + name
  {
    FolderIs(t);
    assert context + "/" + TypeFolder(t) + "/" == context + ("/" + TypeFolder(t) + "/");
  }

  /** A planned file keeps its name; it goes to the folder of its context when it is confirmed and to the one of
      unknown objects otherwise, by type. An owner's resolution confirms it under the owner's context. */
  lemma PlannedWhere(path: string, content: string, request: PlanRequest, resolution: Option<Resolution>, sha: Sha)
    requires PlanFile(path, content, request, resolution, sha).Ok?
    ensures var p := PlanFile(path, content, request, resolution, sha).value;
            && p.source == path && p.content == content
            && p.destination == (if p.header.status == Confirmed && p.header.context.Some? then p.header.context.value
                                 else "unknowns") + TypePart(p.header.objectType) + Name(path)
            && (resolution.Some? ==>
                  && p.header.status == Confirmed && p.header.source == Owner
                  && p.header.context == Some(resolution.value.context)
                  && p.header.description == resolution.value.description
                  && SortedUnique(p.header.tags)
                  && forall t :: t in p.header.tags <==> t in resolution.value.tags)
  {
    hide ReadIdentity, Classify, Name, Valid, SortedSet, Destination, TypePart, SortedUnique;
    if resolution.Some? {
      SortedSetIs(resolution.value.tags);
    }
    DestinationIs(PlanFile(path, content, request, resolution, sha).value.header, Name(path));
  }

  // ----- Planning the folder -------------------------------------------------------------

  const DUPLICATE_IDENTITY := "FOLDER_DUPLICATE_OBJECT_IDENTITY"
  const DESTINATION_COLLISION := "FOLDER_DESTINATION_COLLISION"
  const RESOLUTION_NOT_FOUND := "FOLDER_RESOLUTION_NOT_FOUND"
  const NO_SQL_FILES := "FOLDER_NO_SQL_FILES"
  const SOURCE_COLLISION := "FOLDER_IN_PLACE_SOURCE_COLLISION"

  function IdentityKey(p: Planned): string {
    Casefold(p.header.objectId)
  }

  function DestinationKey(p: Planned): string {
    Casefold(p.destination)
  }

  function SourceKey(p: Planned): string {
    Casefold(p.source)
  }

  predicate Fits(done: seq<Planned>, p: Planned) {
    && (forall i :: 0 <= i < |done| ==> IdentityKey(done[i]) != IdentityKey(p))
    && (forall i :: 0 <= i < |done| ==> DestinationKey(done[i]) != DestinationKey(p))
  }

  function Extend(done: seq<Planned>, p: Planned): Result<seq<Planned>> {
    if exists i :: 0 <= i < |done| && IdentityKey(done[i]) == IdentityKey(p) then Err(DUPLICATE_IDENTITY)
    else if exists i :: 0 <= i < |done| && DestinationKey(done[i]) == DestinationKey(p) then Err(DESTINATION_COLLISION)
    else Ok(done + [p])
  }

  /** Each resolution is used by the first file with its folded path. */
  function ResolutionFor(files: seq<string>, n: nat, resolutions: map<string, Resolution>): Option<Resolution>
    requires n < |files|
  {
    var key := Casefold(files[n]);
    if key in resolutions && forall i :: 0 <= i < n ==> Casefold(files[i]) != key
    then Some(resolutions[key]) else None
  }

  predicate Stored(fs: FileSystem, tree: Tree, files: seq<string>) {
    forall i :: 0 <= i < |files| ==> Key(fs, files[i]) in tree
  }

  function Content(fs: FileSystem, tree: Tree, path: string): string
    requires Key(fs, path) in tree
  {
    ReadText(tree[Key(fs, path)].text)
  }

  /** The first `n` files, planned one after the other. */
  function PlanFirst(fs: FileSystem, tree: Tree, files: seq<string>, n: nat, request: PlanRequest, sha: Sha):
    Result<seq<Planned>>
    requires n <= |files| && Stored(fs, tree, files)
  {
    if n == 0 then Ok([]) else
    match PlanFirst(fs, tree, files, n - 1, request, sha)
    case Err(code) => Err(code)
    case Ok(done) =>
      match PlanFile(files[n - 1], Content(fs, tree, files[n - 1]), request,
                     ResolutionFor(files, n - 1, request.resolutions), sha)
      case Err(code) => Err(code)
      case Ok(p) => Extend(done, p)
  }

  /** A destination that is another file's source. */
  predicate HitsSource(items: seq<Planned>, i: nat)
    requires i < |items|
  {
    && DestinationKey(items[i]) != SourceKey(items[i])
    && exists j :: 0 <= j < |items| && SourceKey(items[j]) == DestinationKey(items[i])
  }

  function Finish(files: seq<string>, items: seq<Planned>, request: PlanRequest): Result<seq<Planned>> {
    if exists key :: key in request.resolutions && forall i :: 0 <= i < |files| ==> Casefold(files[i]) != key
    then Err(RESOLUTION_NOT_FOUND)
    else if items == [] then Err(NO_SQL_FILES)
    else if request.inPlace && exists i :: 0 <= i < |items| && HitsSource(items, i) then Err(SOURCE_COLLISION)
    else Ok(items)
  }

  function Plan(fs: FileSystem, tree: Tree, files: seq<string>, request: PlanRequest, sha: Sha): Result<seq<Planned>>
    requires Stored(fs, tree, files)
  {
    match PlanFirst(fs, tree, files, |files|, request, sha)
    case Err(code) => Err(code)
    case Ok(items) => Finish(files, items, request)
  }
}
