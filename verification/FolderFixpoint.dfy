/** After an in-place plan is applied, planning the folder again changes nothing. */
module FolderFixpoint {
  import opened Text
  import opened FileTree
  import opened Declarations
  import opened ManagedHeader
  import opened CategoryRules
  import opened FolderPlanning
  import opened FolderApply

  // ----- One file ------------------------------------------------------------------------

  /** A classified header still speaks for its body. */
  lemma StillChecked(h: Header, h': Header, body: string, engine: Engine, sha: Sha)
    requires CheckManaged(h, body, engine, sha).Ok?
    requires h'.objectType == h.objectType && h'.schemaName == h.schemaName && h'.objectName == h.objectName
    requires h'.engine == h.engine && h'.contentHash == h.contentHash
    ensures CheckManaged(h', body, engine, sha) == Ok((h', body))
  {
  }

  /** Reading a managed text back returns the header and body it was rendered from, unless the
      header is not valid. */
  lemma ReadsBack(content: string, h': Header, engine: Engine, sha: Sha)
    requires ReadIdentity(content, engine, sha).Ok?
    requires var (h, _) := ReadIdentity(content, engine, sha).value;
             && h'.objectType == h.objectType && h'.schemaName == h.schemaName && h'.objectName == h.objectName
             && h'.engine == h.engine && h'.contentHash == h.contentHash
    ensures var body := ReadIdentity(content, engine, sha).value.1;
            ReadIdentity(Render(h', body), engine, sha) == if Valid(h') then Ok((h', body)) else Err(HEADER_INVALID)
  {
    hide Valid, Parse, Render, DetectIdentity, Adopt, CheckManaged;
    var (h, body) := ReadIdentity(content, engine, sha).value;
    ReadIsChecked(content, engine, sha);
    HeaderRoundTrip(h', body);
    StillChecked(h, h', body, engine, sha);
    CodesDiffer();
  }

  lemma CodesDiffer()
    ensures HEADER_INVALID != HEADER_MISSING
  {
  }

  predicate ValidRequest(request: PlanRequest) {
    && request.inPlace && request.resolutions == map[]
    && (request.rules.Some? ==> ValidRules(request.rules.value))
  }

  predicate IsPlanned(p: Planned, request: PlanRequest, sha: Sha) {
    PlanFile(p.source, p.content, request, None, sha) == Ok(p)
  }

  lemma PlannedParts(p: Planned, request: PlanRequest, sha: Sha)
    requires ValidRequest(request) && IsPlanned(p, request, sha)
    ensures ReadIdentity(p.content, request.engine, sha).Ok?
    ensures var (h, body) := ReadIdentity(p.content, request.engine, sha).value;
            && Valid(h) && p.body == body
            && Classify(h, request.rules) == Ok(p.header)
            && p.destination == Destination(p.header, Name(p.source))
  {
    hide ReadIdentity, Classify, Destination, Valid, CheckManaged;
    ReadIsChecked(p.content, request.engine, sha);
  }

  lemma NameOfDestination(h: Header, path: string)
    ensures Name(Destination(h, Name(path))) == Name(path)
    ensures Destination(h, Name(Destination(h, Name(path)))) == Destination(h, Name(path))
  {
    hide Name, Category;
    NameHasNoSlash(path);
    NameOf(Category(h) + "/" + TypeFolder(h.objectType), Name(path));
  }

  /** The destination of a file depends on its name alone, and folds with it. */
  lemma FoldedDestination(h: Header, a: string, b: string)
    requires Casefold(a) == Casefold(b)
    ensures Casefold(Destination(h, Name(a))) == Casefold(Destination(h, Name(b)))
  {
    hide Casefold, Name, Category;
    CasefoldName(a);
    CasefoldName(b);
    CasefoldConcat(Category(h) + "/" + TypeFolder(h.objectType) + "/", Name(a));
    CasefoldConcat(Category(h) + "/" + TypeFolder(h.objectType) + "/", Name(b));
  }

  /** Listed under any spelling of its destination, a managed file is sent to that very place. */
  lemma DestinationStays(fs: FileSystem, h: Header, source: string, path: string)
    requires Key(fs, path) == Key(fs, Destination(h, Name(source)))
    ensures Key(fs, Destination(h, Name(path))) == Key(fs, path)
  {
    hide Casefold, Destination, Name;
    var destination := Destination(h, Name(source));
    NameOfDestination(h, source);
    KeyFold(fs, path, destination);
    FoldedDestination(h, path, destination);
  }

  /** The second plan of a file: the managed text, at the spelling it is listed under. */
  function Replanned(p: Planned, path: string): Planned {
    Planned(path, p.Rendered(), p.header, p.body, Destination(p.header, Name(path)))
  }

  /** Planning a managed text where it stands: it is rendered the same and stays there. */
  lemma PlansAgain(fs: FileSystem, p: Planned, path: string, request: PlanRequest, sha: Sha)
    requires ValidRequest(request) && IsPlanned(p, request, sha) && Key(fs, path) == Key(fs, p.destination)
    ensures PlanFile(path, p.Rendered(), request, None, sha)
         == if FewClaims(p, request, sha) then Ok(Replanned(p, path)) else Err(HEADER_INVALID)
    ensures Key(fs, Replanned(p, path).destination) == Key(fs, path)
  {
    hide ReadIdentity, Classify, Valid, Destination, ClaimCount, Render, ValidRules, Name, Casefold;
    PlannedParts(p, request, sha);
    var (h, body) := ReadIdentity(p.content, request.engine, sha).value;
    ClassifyKeeps(h, request.rules);
    ClassifyIdempotent(h, request.rules);
    ClassifiedValid(h, request.rules);
    ReadsBack(p.content, p.header, request.engine, sha);
    DestinationStays(fs, p.header, p.source, path);
  }

  // ----- The applied tree ----------------------------------------------------------------

  /** No planned file is only respelled: where source and destination differ in case alone, the
      file system takes them for the same file. */
  predicate NoRespelling(fs: FileSystem, items: seq<Planned>) {
    forall i :: 0 <= i < |items| && SourceKey(items[i]) == DestinationKey(items[i]) ==>
      Key(fs, items[i].source) == Key(fs, items[i].destination)
  }

  /** The tree after the plan is applied to the folder it was made from. */
  function Applied(fs: FileSystem, tree: Tree, items: seq<Planned>, sha: Sha): Tree {
    ApplyTree(fs, tree, RecordsOf(items, sha), Texts(items))
  }

  /** Facts about a plan that the theorem uses. */
  predicate Good(fs: FileSystem, tree: Tree, files: seq<string>, items: seq<Planned>, request: PlanRequest, sha: Sha) {
    && IsListing(fs, tree, files) && WellKeyed(fs, tree) && ValidRequest(request)
    && |items| == |files| && items != []
    && (forall i :: 0 <= i < |items| ==>
        items[i].source == files[i] && items[i].content == ContentAt(fs, tree, files[i]))
    && (forall i :: 0 <= i < |items| ==> IsPlanned(items[i], request, sha))
    && (forall i, j :: 0 <= i < j < |items| ==> IdentityKey(items[i]) != IdentityKey(items[j]))
    && (forall i, j :: 0 <= i < j < |items| ==> DestinationKey(items[i]) != DestinationKey(items[j]))
    && (forall i :: 0 <= i < |items| ==> !HitsSource(items, i))
  }

  function ContentAt(fs: FileSystem, tree: Tree, path: string): string {
    if Key(fs, path) in tree then Content(fs, tree, path) else ""
  }

  lemma PlanIsGood(fs: FileSystem, tree: Tree, files: seq<string>, request: PlanRequest, sha: Sha)
    requires IsListing(fs, tree, files) && WellKeyed(fs, tree) && ValidRequest(request)
    requires Stored(fs, tree, files) && Plan(fs, tree, files, request, sha).Ok?
    ensures Good(fs, tree, files, Plan(fs, tree, files, request, sha).value, request, sha)
  {
    hide PlanFile, PlanFirst, IsListing, HitsSource, WellKeyed, Content;
    var items := Plan(fs, tree, files, request, sha).value;
    PlanRecords(fs, tree, files, request, sha);
    PlannedSources(fs, tree, files, request, sha, items);
  }

  lemma GoodLosesNothing(fs: FileSystem, tree: Tree, files: seq<string>, items: seq<Planned>, request: PlanRequest,
                         sha: Sha)
    requires Good(fs, tree, files, items, request, sha) && NoRespelling(fs, items)
    ensures LosesNothing(fs, RecordsOf(items, sha)) && DistinctDestinations(RecordsOf(items, sha))
  {
    hide IsPlanned, Casefold, WellKeyed, ContentAt, ValidRequest;
    var records := RecordsOf(items, sha);
    forall i, j | 0 <= i < |records| && 0 <= j < |records|
        && Key(fs, records[i].source) == Key(fs, records[j].destination)
      ensures !records[i].Moves()
    {
      KeyFold(fs, records[i].source, records[j].destination);
      assert SourceKey(items[i]) == DestinationKey(items[j]);
      assert !HitsSource(items, j);
      assert SourceKey(items[j]) == DestinationKey(items[j]);
      assert Key(fs, items[i].source) == Key(fs, items[j].source);
      assert i == j;
    }
  }

  predicate IsDestination(fs: FileSystem, items: seq<Planned>, path: string) {
    exists i :: 0 <= i < |items| && Key(fs, items[i].destination) == Key(fs, path)
  }

  /** Exactly the destinations are SQL files of the applied tree, each with its rendered text and listed
      under a spelling of its destination. */
  lemma AppliedFiles(fs: FileSystem, tree: Tree, files: seq<string>, items: seq<Planned>, request: PlanRequest,
                     sha: Sha, files': seq<string>)
    requires Good(fs, tree, files, items, request, sha) && NoRespelling(fs, items)
    requires IsListing(fs, Applied(fs, tree, items, sha), files')
    ensures var after := Applied(fs, tree, items, sha);
      && (forall i :: 0 <= i < |items| ==>
            Placed(fs, after, items[i].destination, items[i].Rendered()) &&
            after[Key(fs, items[i].destination)].path in files')
      && (forall a :: 0 <= a < |files'| ==> IsDestination(fs, items, files'[a]))
  {
    hide Applied, ApplyTree, Planned.Rendered, Good, NoRespelling, IsSql;
    var after := Applied(fs, tree, items, sha);
    forall i | 0 <= i < |items|
      ensures Placed(fs, after, items[i].destination, items[i].Rendered())
      ensures after[Key(fs, items[i].destination)].path in files'
    {
      DestinationWritten(fs, tree, files, items, request, sha, i);
      DestinationIsSql(fs, tree, files, items, request, sha, i);
      SameKeySql(fs, items[i].destination, after[Key(fs, items[i].destination)].path);
    }
    forall a | 0 <= a < |files'|
      ensures IsDestination(fs, items, files'[a])
    {
      assert Key(fs, files'[a]) in after && after[Key(fs, files'[a])].path == files'[a] && IsSql(fs, files'[a]);
      ListedIsDestination(fs, tree, files, items, request, sha, files'[a]);
    }
  }

  lemma SameKeySql(fs: FileSystem, a: string, b: string)
    requires Key(fs, a) == Key(fs, b)
    ensures IsSql(fs, a) == IsSql(fs, b)
  {
  }

  lemma DestinationWritten(fs: FileSystem, tree: Tree, files: seq<string>, items: seq<Planned>, request: PlanRequest,
                           sha: Sha, i: nat)
    requires Good(fs, tree, files, items, request, sha) && NoRespelling(fs, items) && i < |items|
    ensures Placed(fs, Applied(fs, tree, items, sha), items[i].destination, items[i].Rendered())
  {
    hide Good, NoRespelling, ApplyTree, LosesNothing, DistinctDestinations, Placed;
    GoodLosesNothing(fs, tree, files, items, request, sha);
    ApplyOutcome(fs, tree, RecordsOf(items, sha), Texts(items));
    assert RecordsOf(items, sha)[i].destination == items[i].destination;
    assert Texts(items)[i] == items[i].Rendered();
  }

  lemma DestinationIsSql(fs: FileSystem, tree: Tree, files: seq<string>, items: seq<Planned>, request: PlanRequest,
                         sha: Sha, i: nat)
    requires Good(fs, tree, files, items, request, sha) && i < |items|
    ensures IsSql(fs, items[i].destination)
  {
    hide IsSql, Name, Destination, HitsSource, Casefold, WellKeyed, ContentAt;
    assert IsPlanned(items[i], request, sha);
    PlannedParts(items[i], request, sha);
    NameOfDestination(items[i].header, items[i].source);
    SqlByName(fs, items[i].source, items[i].destination);
    assert IsSql(fs, files[i]);
  }

  lemma ListedIsDestination(fs: FileSystem, tree: Tree, files: seq<string>, items: seq<Planned>, request: PlanRequest,
                            sha: Sha, path: string)
    requires Good(fs, tree, files, items, request, sha) && NoRespelling(fs, items)
    requires var after := Applied(fs, tree, items, sha);
             Key(fs, path) in after && after[Key(fs, path)].path == path && IsSql(fs, path)
    ensures IsDestination(fs, items, path)
  {
    hide ApplyTree, IsPlanned, IsSql, ValidRequest, HitsSource;
    var records := RecordsOf(items, sha);
    var key := Key(fs, path);
    if !IsDestination(fs, items, path) {
      ApplyElsewhere(fs, tree, records, Texts(items), key);
      assert tree[key].path in files;
      var i :| 0 <= i < |files| && files[i] == path;
      if records[i].Moves() {
        assert false;
      } else {
        assert false;
      }
    }
  }

  // ----- The theorem ---------------------------------------------------------------------

  /** Planning succeeds, every file's destination is the place where it stands, and its text is rendered
      byte for byte as it stands. */
  predicate FixedPointAt(fs: FileSystem, tree: Tree, files: seq<string>, request: PlanRequest, sha: Sha) {
    && Stored(fs, tree, files)
    && Plan(fs, tree, files, request, sha).Ok?
    && var items := Plan(fs, tree, files, request, sha).value;
       forall i :: 0 <= i < |items| ==>
         && Key(fs, items[i].destination) == Key(fs, items[i].source)
         && Holds(fs, tree, items[i].source, items[i].Rendered())
  }

  /** Which planned file now stands at each listed path. */
  predicate Stands(fs: FileSystem, items: seq<Planned>, files': seq<string>, at: seq<nat>) {
    && |at| == |files'|
    && (forall a :: 0 <= a < |at| ==> at[a] < |items| && Key(fs, items[at[a]].destination) == Key(fs, files'[a]))
  }

  lemma StandsAt(fs: FileSystem, items: seq<Planned>, files': seq<string>, n: nat) returns (at: seq<nat>)
    requires n <= |files'|
    requires forall a :: 0 <= a < n ==> IsDestination(fs, items, files'[a])
    ensures Stands(fs, items, files'[..n], at)
  {
    hide Key;
    at := [];
    if n > 0 {
      var before := StandsAt(fs, items, files', n - 1);
      var i :| 0 <= i < |items| && Key(fs, items[i].destination) == Key(fs, files'[n - 1]);
      at := before + [i];
      assert forall a :: 0 <= a < n - 1 ==> files'[..n][a] == files'[..n - 1][a];
    }
  }

  lemma ContentOfDestination(fs: FileSystem, tree: Tree, p: Planned, request: PlanRequest, sha: Sha, stored: string)
    requires ValidRequest(request) && IsPlanned(p, request, sha) && p.content == ReadText(stored)
    ensures ReadText(p.Rendered()) == p.Rendered()
  {
    hide ReadIdentity, Classify, Destination, Valid, Render, NoReturn, UniversalNewlines;
    PlannedParts(p, request, sha);
    NewlinesUnified(if stored != "" && stored[0] == '\U{FEFF}' then stored[1..] else stored);
    BodyHasNoReturn(p.content, request.engine, sha);
    RenderedReadsBack(p.header, p.body);
  }

  lemma ReplannedAt(fs: FileSystem, tree: Tree, files: seq<string>, items: seq<Planned>, request: PlanRequest, sha: Sha,
                    path: string, i: nat)
    requires Good(fs, tree, files, items, request, sha) && NoRespelling(fs, items)
    requires i < |items| && Key(fs, path) == Key(fs, items[i].destination) && FewClaims(items[i], request, sha)
    ensures var after := Applied(fs, tree, items, sha);
            && Holds(fs, after, path, items[i].Rendered())
            && Content(fs, after, path) == items[i].Rendered()
            && PlanFile(path, Content(fs, after, path), request, None, sha) == Ok(Replanned(items[i], path))
            && Key(fs, Replanned(items[i], path).destination) == Key(fs, path)
  {
    hide Applied, PlanFile, FewClaims, NoRespelling, IsListing, HitsSource, Casefold, ReadText, Planned.Rendered,
         WellKeyed;
    DestinationWritten(fs, tree, files, items, request, sha, i);
    PlansAgain(fs, items[i], path, request, sha);
    ListedIsStored(fs, tree, files, i);
    ContentOfDestination(fs, tree, items[i], request, sha, tree[Key(fs, files[i])].text);
  }

  lemma ListedIsStored(fs: FileSystem, tree: Tree, files: seq<string>, i: nat)
    requires IsListing(fs, tree, files) && i < |files|
    ensures Key(fs, files[i]) in tree
  {
  }

  lemma NoResolution(files: seq<string>, request: PlanRequest)
    requires ValidRequest(request)
    ensures forall n: nat :: n < |files| ==> ResolutionFor(files, n, request.resolutions) == None
  {
  }

  function SecondItems(items: seq<Planned>, files': seq<string>, at: seq<nat>): (r: seq<Planned>)
    requires |at| == |files'| && forall a :: 0 <= a < |at| ==> at[a] < |items|
    ensures |r| == |at|
  {
    seq(|at|, a requires 0 <= a < |at| => Replanned(items[at[a]], files'[a]))
  }

  lemma StandsApart(fs: FileSystem, items: seq<Planned>, files': seq<string>, at: seq<nat>)
    requires Stands(fs, items, files', at)
    requires forall a, b :: 0 <= a < b < |files'| ==> Key(fs, files'[a]) != Key(fs, files'[b])
    ensures forall a, b :: 0 <= a < b < |at| ==> at[a] != at[b]
  {
  }

  lemma SecondPlanned(fs: FileSystem, tree: Tree, files: seq<string>, items: seq<Planned>, request: PlanRequest,
                      sha: Sha, files': seq<string>, at: seq<nat>)
    requires Good(fs, tree, files, items, request, sha) && NoRespelling(fs, items)
    requires forall i :: 0 <= i < |items| ==> FewClaims(items[i], request, sha)
    requires var after := Applied(fs, tree, items, sha); IsListing(fs, after, files') && Stored(fs, after, files')
    requires Stands(fs, items, files', at)
    ensures PlannedFrom(fs, Applied(fs, tree, items, sha), files', |files'|, request, sha,
                        SecondItems(items, files', at))
  {
    hide Applied, PlanFile, FewClaims, NoRespelling, Good, Casefold, Content, ResolutionFor, Key, Replanned;
    var after := Applied(fs, tree, items, sha);
    var second := SecondItems(items, files', at);
    ListingIsStored(fs, after, files');
    StandsApart(fs, items, files', at);
    forall a | 0 <= a < |files'|
      ensures PlanFile(files'[a], Content(fs, after, files'[a]), request,
                       ResolutionFor(files', a, request.resolutions), sha)
              == Ok(second[a])
    {
      ReplannedAt(fs, tree, files, items, request, sha, files'[a], at[a]);
      GoodRequest(fs, tree, files, items, request, sha);
      NoResolution(files', request);
    }
    GoodDistinct(fs, tree, files, items, request, sha);
    forall a, b | 0 <= a < b < |files'|
      ensures IdentityKey(second[a]) != IdentityKey(second[b]) && DestinationKey(second[a]) != DestinationKey(second[b])
    {
      assert at[a] != at[b];
      SecondKeys(fs, tree, files, items, request, sha, files'[a], at[a]);
      SecondKeys(fs, tree, files, items, request, sha, files'[b], at[b]);
    }
  }

  /** A second plan claims what the first one claimed, and stays where it stands. */
  lemma SecondKeys(fs: FileSystem, tree: Tree, files: seq<string>, items: seq<Planned>, request: PlanRequest, sha: Sha,
                   path: string, i: nat)
    requires Good(fs, tree, files, items, request, sha)
    requires i < |items| && Key(fs, path) == Key(fs, items[i].destination)
    ensures var p := Replanned(items[i], path);
            && IdentityKey(p) == IdentityKey(items[i])
            && DestinationKey(p) == SourceKey(p) == DestinationKey(items[i])
  {
    hide HitsSource, IsListing, ContentAt, Casefold, Planned.Rendered, PlanFile, FewClaims;
    assert IsPlanned(items[i], request, sha);
    PlansAgain(fs, items[i], path, request, sha);
    KeyFold(fs, path, items[i].destination);
    KeyFold(fs, Replanned(items[i], path).destination, path);
  }

  lemma GoodRequest(fs: FileSystem, tree: Tree, files: seq<string>, items: seq<Planned>, request: PlanRequest, sha: Sha)
    requires Good(fs, tree, files, items, request, sha)
    ensures ValidRequest(request) && |items| == |files| && items != []
  {
  }

  lemma GoodDistinct(fs: FileSystem, tree: Tree, files: seq<string>, items: seq<Planned>, request: PlanRequest,
                     sha: Sha)
    requires Good(fs, tree, files, items, request, sha)
    ensures forall i, j :: 0 <= i < |items| && 0 <= j < |items| && i != j ==>
      IdentityKey(items[i]) != IdentityKey(items[j]) && DestinationKey(items[i]) != DestinationKey(items[j])
  {
    hide IdentityKey, DestinationKey, HitsSource, IsPlanned, IsListing, ContentAt, ValidRequest;
    forall i, j | 0 <= i < |items| && 0 <= j < |items| && i != j
      ensures IdentityKey(items[i]) != IdentityKey(items[j]) && DestinationKey(items[i]) != DestinationKey(items[j])
    {
      if i < j {
      } else {
        assert IdentityKey(items[j]) != IdentityKey(items[i]);
      }
    }
  }

  lemma ListingIsStored(fs: FileSystem, tree: Tree, files: seq<string>)
    requires IsListing(fs, tree, files)
    ensures Stored(fs, tree, files)
    ensures forall a, b :: 0 <= a < b < |files| ==> Key(fs, files[a]) != Key(fs, files[b])
  {
  }

  /** Under the two conditions the second plan is a fixed point. */
  lemma SecondPlanIsFixed(fs: FileSystem, tree: Tree, files: seq<string>, items: seq<Planned>, request: PlanRequest,
                          sha: Sha, files': seq<string>)
    requires Good(fs, tree, files, items, request, sha) && NoRespelling(fs, items)
    requires forall i :: 0 <= i < |items| ==> FewClaims(items[i], request, sha)
    requires IsListing(fs, Applied(fs, tree, items, sha), files')
    ensures FixedPointAt(fs, Applied(fs, tree, items, sha), files', request, sha)
  {
    hide Applied, PlanFile, FewClaims, NoRespelling, Good, Casefold, Content, PlanFirst, PlannedFrom, IsListing,
         Planned.Rendered, Stored, Key, Holds, Replanned, HitsSource;
    var after := Applied(fs, tree, items, sha);
    ListingIsStored(fs, after, files');
    AppliedFiles(fs, tree, files, items, request, sha, files');
    var at := StandsAt(fs, items, files', |files'|);
    assert files'[..|files'|] == files';
    SecondPlanned(fs, tree, files, items, request, sha, files', at);
    var second := SecondItems(items, files', at);
    PlanFirstIs(fs, after, files', |files'|, request, sha, second);
    GoodRequest(fs, tree, files, items, request, sha);
    assert after[Key(fs, items[0].destination)].path in files';
    forall a | 0 <= a < |second|
      ensures DestinationKey(second[a]) == SourceKey(second[a])
      ensures Key(fs, second[a].destination) == Key(fs, second[a].source)
      ensures Holds(fs, after, second[a].source, second[a].Rendered())
    {
      SecondKeys(fs, tree, files, items, request, sha, files'[a], at[a]);
      ReplannedAt(fs, tree, files, items, request, sha, files'[a], at[a]);
      RenderedAgain(items[at[a]], files'[a]);
    }
    FinishSecond(files', second, request);
  }

  lemma RenderedAgain(p: Planned, path: string)
    ensures Replanned(p, path).Rendered() == p.Rendered() && Replanned(p, path).source == path
  {
  }

  lemma FinishSecond(files': seq<string>, second: seq<Planned>, request: PlanRequest)
    requires ValidRequest(request) && second != []
    requires forall a :: 0 <= a < |second| ==> DestinationKey(second[a]) == SourceKey(second[a])
    ensures Finish(files', second, request) == Ok(second)
  {
    hide Casefold, ValidRules, DestinationKey, SourceKey;
  }

  lemma FixedFile(fs: FileSystem, tree: Tree, files: seq<string>, request: PlanRequest, sha: Sha, path: string)
    requires ValidRequest(request) && FixedPointAt(fs, tree, files, request, sha) && path in files
    ensures Key(fs, path) in tree
    ensures var r := PlanFile(path, Content(fs, tree, path), request, None, sha);
            r.Ok? && Key(fs, r.value.destination) == Key(fs, path)
  {
    hide PlanFile, Content, PlanFirst, Finish, ResolutionFor, IdentityKey, DestinationKey, HitsSource, Holds;
    var items := Plan(fs, tree, files, request, sha).value;
    PlanRecords(fs, tree, files, request, sha);
    PlannedSources(fs, tree, files, request, sha, items);
    NoResolution(files, request);
    var a :| 0 <= a < |files| && files[a] == path;
    assert items[a].source == path;
  }

  /** A file that is only respelled stays where it was, so the second plan moves it again. */
  lemma RespelledIsNotFixed(fs: FileSystem, tree: Tree, files: seq<string>, items: seq<Planned>, request: PlanRequest,
                            sha: Sha, files': seq<string>, i: nat)
    requires Good(fs, tree, files, items, request, sha) && i < |items|
    requires SourceKey(items[i]) == DestinationKey(items[i])
    requires Key(fs, items[i].source) != Key(fs, items[i].destination)
    requires IsListing(fs, Applied(fs, tree, items, sha), files')
    ensures !FixedPointAt(fs, Applied(fs, tree, items, sha), files', request, sha)
  {
    hide PlanFile, Content, ReadText, HitsSource, FixedPointAt, Casefold, IsSql, ApplyTree, Planned.Rendered, Unlinked;
    var after, key := Applied(fs, tree, items, sha), Key(fs, items[i].source);
    GoodDistinct(fs, tree, files, items, request, sha);
    forall j | 0 <= j < |items|
      ensures Key(fs, items[j].destination) != key
    {
      KeyFold(fs, items[j].destination, items[i].source);
    }
    var records := RecordsOf(items, sha);
    ApplyElsewhere(fs, tree, records, Texts(items), key);
    StaysLinked(fs, tree, files, items, request, sha, i);
    assert after[key] == tree[key] && tree[key].path == files[i] && IsSql(fs, files[i]);
    assert files[i] in files';
    assert IsPlanned(items[i], request, sha);
    ContentSame(fs, tree, after, files[i]);
    if FixedPointAt(fs, after, files', request, sha) {
      FixedFile(fs, after, files', request, sha, files[i]);
      assert false;
    }
  }

  lemma ContentSame(fs: FileSystem, tree: Tree, after: Tree, path: string)
    requires Key(fs, path) in tree && Key(fs, path) in after && after[Key(fs, path)] == tree[Key(fs, path)]
    ensures Content(fs, after, path) == ContentAt(fs, tree, path)
  {
  }

  lemma StaysLinked(fs: FileSystem, tree: Tree, files: seq<string>, items: seq<Planned>, request: PlanRequest,
                    sha: Sha, i: nat)
    requires Good(fs, tree, files, items, request, sha) && i < |items|
    requires SourceKey(items[i]) == DestinationKey(items[i])
    ensures !Unlinked(fs, RecordsOf(items, sha), Key(fs, items[i].source))
  {
    hide Casefold, HitsSource, IsPlanned, ContentAt, ValidRequest, IsSql, Planned.Rendered;
    var records := RecordsOf(items, sha);
    forall m | 0 <= m < |records| && Key(fs, records[m].source) == Key(fs, items[i].source)
      ensures !records[m].Moves()
    {
      assert m == i;
    }
  }

  /** After an in-place plan without owner resolutions is applied, planning the resulting folder with
      the same rules reaches a fixed point if and only if no file was only respelled on a file system
      that tells case apart. An application is accepted when every stored header is valid. */
  lemma PlanningReachesFixedPoint(fs: FileSystem, tree: Tree, files: seq<string>, request: PlanRequest, sha: Sha,
                                  files': seq<string>)
    requires WellKeyed(fs, tree) && ValidRequest(request)
    requires IsListing(fs, tree, files) && Stored(fs, tree, files) && Plan(fs, tree, files, request, sha).Ok?
    requires var items := Plan(fs, tree, files, request, sha).value;
             Stage(fs, tree, RecordsOf(items, sha), |items|, request.engine, sha).Ok?
    requires IsListing(fs, Applied(fs, tree, Plan(fs, tree, files, request, sha).value, sha), files')
    ensures var items := Plan(fs, tree, files, request, sha).value;
            && Stage(fs, tree, RecordsOf(items, sha), |items|, request.engine, sha) == Ok(Texts(items))
            && (FixedPointAt(fs, Applied(fs, tree, items, sha), files', request, sha) <==> NoRespelling(fs, items))
  {
    hide Applied, PlanFile, FewClaims, Good, Plan, IsListing, FixedPointAt, Casefold, Planned.Rendered, Content, Stage,
         ResolutionFor;
    var items := Plan(fs, tree, files, request, sha).value;
    PlanIsGood(fs, tree, files, request, sha);
    StagedFromPlan(fs, tree, files, request, sha);
    NoResolution(files, request);
    if NoRespelling(fs, items) {
      SecondPlanIsFixed(fs, tree, files, items, request, sha, files');
    } else {
      var i :| 0 <= i < |items| && SourceKey(items[i]) == DestinationKey(items[i]) &&
               Key(fs, items[i].source) != Key(fs, items[i].destination);
      RespelledIsNotFixed(fs, tree, files, items, request, sha, files', i);
    }
  }
}
