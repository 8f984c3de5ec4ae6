/** Applying a folder plan in place: check everything, write every destination, unlink the moved
    sources, replace the manifest. */
module FolderApply {
  import opened Text
  import opened FileTree
  import opened ManagedHeader
  import opened CategoryRules
  import opened FolderPlanning

  /** What a stored plan keeps of one file. */
  datatype Record = Record(source: string, destination: string, inputHash: string, outputHash: string, header: Header) {
    predicate Moves() {
      Casefold(source) != Casefold(destination)
    }
  }

  function RecordOf(p: Planned, sha: Sha): Record {
    Record(p.source, p.destination, sha(p.content), sha(p.Rendered()), p.header)
  }

  function RecordsOf(items: seq<Planned>, sha: Sha): (r: seq<Record>)
    ensures |r| == |items|
  {
    seq(|items|, i requires 0 <= i < |items| => RecordOf(items[i], sha))
  }

  datatype Entry = Entry(path: string, sha256: string)

  // ----- Checking and staging ------------------------------------------------------------

  const SOURCE_MISSING := "FILE_NOT_FOUND"
  const PLAN_CONTENT_DRIFT := "FOLDER_PLAN_CONTENT_DRIFT"
  const PLAN_HASH_DRIFT := "FOLDER_PLAN_HASH_DRIFT"

  /** The body below the header, or the adopted body of a file that has none. */
  function BodyOf(content: string, engine: Engine, sha: Sha): Result<string> {
    match Parse(content)
    case Ok((_, body)) => Ok(body)
    case Err(_) =>
      match ReadIdentity(content, engine, sha)
      case Err(code) => Err(code)
      case Ok((_, body)) => Ok(body)
  }

  /** The text a record will write, when the source is still what was planned and the stored header is
      valid. */
  function StageText(fs: FileSystem, tree: Tree, r: Record, engine: Engine, sha: Sha): Result<string> {
    if Key(fs, r.source) !in tree then Err(SOURCE_MISSING) else
    var content := Content(fs, tree, r.source);
    if sha(content) != r.inputHash then Err(PLAN_CONTENT_DRIFT)
    else if !Valid(r.header) then Err(INVALID_HEADER) else
    match BodyOf(content, engine, sha)
    case Err(code) => Err(code)
    case Ok(body) =>
      var rendered := Render(r.header, body);
      if sha(rendered) != r.outputHash then Err(PLAN_HASH_DRIFT) else Ok(rendered)
  }

  function Stage(fs: FileSystem, tree: Tree, records: seq<Record>, n: nat, engine: Engine, sha: Sha):
    (r: Result<seq<string>>)
    requires n <= |records|
    ensures r.Ok? ==> |r.value| == n
  {
    if n == 0 then Ok([]) else
    match Stage(fs, tree, records, n - 1, engine, sha)
    case Err(code) => Err(code)
    case Ok(done) =>
      match StageText(fs, tree, records[n - 1], engine, sha)
      case Err(code) => Err(code)
      case Ok(text) => Ok(done + [text])
  }

  lemma {:induction false} StagedText(fs: FileSystem, tree: Tree, records: seq<Record>, n: nat, engine: Engine,
                                      sha: Sha, i: nat)
    requires i < n <= |records| && Stage(fs, tree, records, n, engine, sha).Ok?
    ensures StageText(fs, tree, records[i], engine, sha) == Ok(Stage(fs, tree, records, n, engine, sha).value[i])
  {
    hide StageText;
    if i < n - 1 {
      StagedText(fs, tree, records, n - 1, engine, sha, i);
    }
  }

  /** The source is there with the planned text, the stored header is valid, and rendering it over the body gives
      the planned output. */
  predicate Stageable(fs: FileSystem, tree: Tree, r: Record, engine: Engine, sha: Sha) {
    && Key(fs, r.source) in tree
    && var content := Content(fs, tree, r.source);
       && sha(content) == r.inputHash
       && Valid(r.header)
       && BodyOf(content, engine, sha).Ok?
       && sha(Render(r.header, BodyOf(content, engine, sha).value)) == r.outputHash
  }

  lemma StageableIs(fs: FileSystem, tree: Tree, r: Record, engine: Engine, sha: Sha)
    ensures StageText(fs, tree, r, engine, sha).Ok? <==> Stageable(fs, tree, r, engine, sha)
    ensures Key(fs, r.source) in tree && sha(Content(fs, tree, r.source)) != r.inputHash ==>
              StageText(fs, tree, r, engine, sha) == Err(PLAN_CONTENT_DRIFT)
  {
    hide Valid, Render, Content, BodyOf;
  }

  lemma {:induction false} StagedExactly(fs: FileSystem, tree: Tree, records: seq<Record>, n: nat, engine: Engine,
                                         sha: Sha)
    requires n <= |records|
    ensures Stage(fs, tree, records, n, engine, sha).Ok? <==>
            forall i :: 0 <= i < n ==> Stageable(fs, tree, records[i], engine, sha)
  {
    hide StageText, Stageable;
    if n > 0 {
      StagedExactly(fs, tree, records, n - 1, engine, sha);
      StageableIs(fs, tree, records[n - 1], engine, sha);
    }
  }

  // ----- Writing and unlinking -----------------------------------------------------------

  function WriteAll(fs: FileSystem, tree: Tree, records: seq<Record>, texts: seq<string>): Tree
    requires |records| == |texts|
  {
    if records == [] then tree
    else
      var n := |records| - 1;
      Write(fs, WriteAll(fs, tree, records[..n], texts[..n]), records[n].destination, texts[n])
  }

  function UnlinkAll(fs: FileSystem, tree: Tree, records: seq<Record>): Tree {
    if records == [] then tree
    else
      var n := |records| - 1;
      var before := UnlinkAll(fs, tree, records[..n]);
      if records[n].Moves() then Remove(fs, before, records[n].source) else before
  }

  function ApplyTree(fs: FileSystem, tree: Tree, records: seq<Record>, texts: seq<string>): Tree
    requires |records| == |texts|
  {
    UnlinkAll(fs, WriteAll(fs, tree, records, texts), records)
  }

  /** Destinations differ pairwise, ignoring case: the plan has checked it. */
  predicate DistinctDestinations(records: seq<Record>) {
    forall i, j :: 0 <= i < j < |records| ==> Casefold(records[i].destination) != Casefold(records[j].destination)
  }

  /** The unlink pass takes away what is stored under this key. */
  predicate Unlinked(fs: FileSystem, records: seq<Record>, key: string) {
    exists i :: 0 <= i < |records| && records[i].Moves() && Key(fs, records[i].source) == key
  }

  lemma {:induction false} WriteAllAt(fs: FileSystem, tree: Tree, records: seq<Record>, texts: seq<string>, j: nat)
    requires |records| == |texts| && DistinctDestinations(records) && j < |records|
    ensures var after := WriteAll(fs, tree, records, texts);
            Placed(fs, after, records[j].destination, texts[j])
  {
    hide Spelled;
    var n := |records| - 1;
    if j < n {
      WriteAllAt(fs, tree, records[..n], texts[..n], j);
      KeyFold(fs, records[j].destination, records[n].destination);
    }
  }

  lemma {:induction false} WriteAllElsewhere(fs: FileSystem, tree: Tree, records: seq<Record>, texts: seq<string>,
                                             key: string)
    requires |records| == |texts|
    requires forall j :: 0 <= j < |records| ==> Key(fs, records[j].destination) != key
    ensures var after := WriteAll(fs, tree, records, texts);
            (key in after <==> key in tree) && (key in tree ==> after[key] == tree[key])
  {
    if records != [] {
      var n := |records| - 1;
      WriteAllElsewhere(fs, tree, records[..n], texts[..n], key);
    }
  }

  lemma {:induction false} UnlinkAllAt(fs: FileSystem, tree: Tree, records: seq<Record>, key: string)
    ensures var after := UnlinkAll(fs, tree, records);
            (key in after <==> key in tree && !Unlinked(fs, records, key)) &&
            (key in after ==> after[key] == tree[key])
  {
    if records != [] {
      var n := |records| - 1;
      UnlinkAllAt(fs, tree, records[..n], key);
      if Unlinked(fs, records[..n], key) {
        var i :| 0 <= i < n && records[..n][i].Moves() && Key(fs, records[..n][i].source) == key;
        assert records[i].Moves();
      } else if records[n].Moves() && Key(fs, records[n].source) == key {
        assert Unlinked(fs, records, key);
      }
    }
  }

  // ----- Nothing is lost -----------------------------------------------------------------

  /** No moved source is a destination of the plan. */
  predicate LosesNothing(fs: FileSystem, records: seq<Record>) {
    forall j :: 0 <= j < |records| ==> !Unlinked(fs, records, Key(fs, records[j].destination))
  }

  lemma ApplyAt(fs: FileSystem, tree: Tree, records: seq<Record>, texts: seq<string>, j: nat)
    requires |records| == |texts| && DistinctDestinations(records) && j < |records|
    ensures var after, key := ApplyTree(fs, tree, records, texts), Key(fs, records[j].destination);
            && (key in after <==> !Unlinked(fs, records, key))
            && (key in after ==> Placed(fs, after, records[j].destination, texts[j]))
  {
    hide WriteAll, UnlinkAll;
    WriteAllAt(fs, tree, records, texts, j);
    UnlinkAllAt(fs, WriteAll(fs, tree, records, texts), records, Key(fs, records[j].destination));
  }

  predicate AllWritten(fs: FileSystem, after: Tree, records: seq<Record>, texts: seq<string>)
    requires |records| == |texts|
  {
    forall j :: 0 <= j < |records| ==> Placed(fs, after, records[j].destination, texts[j])
  }

  /** Every planned object ends with its rendered text at its destination exactly when no moved
      source is a destination. */
  lemma ApplyOutcome(fs: FileSystem, tree: Tree, records: seq<Record>, texts: seq<string>)
    requires |records| == |texts| && DistinctDestinations(records)
    ensures LosesNothing(fs, records) <==> AllWritten(fs, ApplyTree(fs, tree, records, texts), records, texts)
  {
    hide ApplyTree, Unlinked, DistinctDestinations;
    forall j | 0 <= j < |records| {
      ApplyAt(fs, tree, records, texts, j);
    }
  }

  /** A file that is no destination and no moved source is untouched. */
  lemma ApplyElsewhere(fs: FileSystem, tree: Tree, records: seq<Record>, texts: seq<string>, key: string)
    requires |records| == |texts|
    requires forall j :: 0 <= j < |records| ==> Key(fs, records[j].destination) != key
    ensures var after := ApplyTree(fs, tree, records, texts);
            (key in after <==> key in tree && !Unlinked(fs, records, key)) && (key in after ==> after[key] == tree[key])
  {
    hide WriteAll, UnlinkAll;
    WriteAllElsewhere(fs, tree, records, texts, key);
    UnlinkAllAt(fs, WriteAll(fs, tree, records, texts), records, key);
  }

  // ----- What a plan guarantees ----------------------------------------------------------

  /** The folder's SQL files: each once, sorted by folded path. */
  predicate IsListing(fs: FileSystem, tree: Tree, files: seq<string>) {
    && (forall i, j :: 0 <= i < j < |files| ==> Key(fs, files[i]) != Key(fs, files[j]))
    && (forall i :: 0 <= i < |files| ==>
          Key(fs, files[i]) in tree && tree[Key(fs, files[i])].path == files[i] && IsSql(fs, files[i]))
    && (forall k :: k in tree && IsSql(fs, tree[k].path) ==> tree[k].path in files)
    && (forall i, j :: 0 <= i < j < |files| ==> !Less(Casefold(files[j]), Casefold(files[i])))
  }

  predicate PlannedFrom(fs: FileSystem, tree: Tree, files: seq<string>, n: nat, request: PlanRequest, sha: Sha,
                        items: seq<Planned>)
    requires n <= |files| && Stored(fs, tree, files)
  {
    && |items| == n
    && (forall i :: 0 <= i < n ==>
          PlanFile(files[i], Content(fs, tree, files[i]), request, ResolutionFor(files, i, request.resolutions), sha)
          == Ok(items[i]))
    && (forall i, j :: 0 <= i < j < n ==> IdentityKey(items[i]) != IdentityKey(items[j]))
    && (forall i, j :: 0 <= i < j < n ==> DestinationKey(items[i]) != DestinationKey(items[j]))
  }

  lemma ExtendIs(done: seq<Planned>, p: Planned)
    ensures Extend(done, p) == Ok(done + [p]) <==> Fits(done, p)
    ensures Extend(done, p).Ok? ==> Extend(done, p) == Ok(done + [p])
  {
    hide IdentityKey, DestinationKey;
  }

  lemma PlannedExtend(fs: FileSystem, tree: Tree, files: seq<string>, n: nat, request: PlanRequest, sha: Sha,
                      done: seq<Planned>, p: Planned)
    requires 0 < n <= |files| && Stored(fs, tree, files) && |done| == n - 1
    ensures PlannedFrom(fs, tree, files, n, request, sha, done + [p]) <==>
            && PlannedFrom(fs, tree, files, n - 1, request, sha, done)
            && PlanFile(files[n - 1], Content(fs, tree, files[n - 1]), request,
                        ResolutionFor(files, n - 1, request.resolutions), sha) == Ok(p)
            && Fits(done, p)
  {
    hide PlanFile, Content, ResolutionFor, IdentityKey, DestinationKey;
    var items := done + [p];
    assert forall i :: 0 <= i < n - 1 ==> items[i] == done[i];
    assert items[n - 1] == p;
  }

  /** A plan succeeds exactly when every file is plannable and no identity or destination is
      claimed twice. */
  lemma {:induction false} PlanFirstIs(fs: FileSystem, tree: Tree, files: seq<string>, n: nat, request: PlanRequest,
                                       sha: Sha, items: seq<Planned>)
    requires n <= |files| && Stored(fs, tree, files)
    ensures PlanFirst(fs, tree, files, n, request, sha) == Ok(items) <==>
            PlannedFrom(fs, tree, files, n, request, sha, items)
  {
    hide PlanFile, Content, ResolutionFor, PlannedFrom, Extend, Fits;
    if n == 0 {
      NothingPlanned(fs, tree, files, request, sha, items);
    } else if |items| != n {
      PlanFirstLength(fs, tree, files, n, request, sha);
      PlannedLength(fs, tree, files, n, request, sha, items);
    } else {
      var done, p := items[..n - 1], items[n - 1];
      assert items == done + [p];
      PlanFirstIs(fs, tree, files, n - 1, request, sha, done);
      PlannedExtend(fs, tree, files, n, request, sha, done, p);
      ExtendIs(done, p);
      var before := PlanFirst(fs, tree, files, n - 1, request, sha);
      var file := PlanFile(files[n - 1], Content(fs, tree, files[n - 1]), request,
                           ResolutionFor(files, n - 1, request.resolutions), sha);
      if before.Ok? && file.Ok? {
        ExtendIs(before.value, file.value);
      }
    }
  }

  lemma NothingPlanned(fs: FileSystem, tree: Tree, files: seq<string>, request: PlanRequest, sha: Sha,
                       items: seq<Planned>)
    requires Stored(fs, tree, files)
    ensures PlannedFrom(fs, tree, files, 0, request, sha, items) <==> items == []
  {
  }

  lemma PlannedLength(fs: FileSystem, tree: Tree, files: seq<string>, n: nat, request: PlanRequest, sha: Sha,
                      items: seq<Planned>)
    requires n <= |files| && Stored(fs, tree, files)
    ensures PlannedFrom(fs, tree, files, n, request, sha, items) ==> |items| == n
  {
  }

  lemma {:induction false} PlanFirstLength(fs: FileSystem, tree: Tree, files: seq<string>, n: nat,
                                           request: PlanRequest, sha: Sha)
    requires n <= |files| && Stored(fs, tree, files)
    ensures PlanFirst(fs, tree, files, n, request, sha).Ok? ==>
            |PlanFirst(fs, tree, files, n, request, sha).value| == n
  {
    hide PlanFile, Content, ResolutionFor, IdentityKey, DestinationKey;
    if n > 0 {
      PlanFirstLength(fs, tree, files, n - 1, request, sha);
    }
  }

  /** The recorded destinations of a successful plan differ pairwise. */
  lemma PlanRecords(fs: FileSystem, tree: Tree, files: seq<string>, request: PlanRequest, sha: Sha)
    requires Stored(fs, tree, files) && Plan(fs, tree, files, request, sha).Ok?
    ensures var items := Plan(fs, tree, files, request, sha).value;
            && PlannedFrom(fs, tree, files, |files|, request, sha, items)
            && DistinctDestinations(RecordsOf(items, sha))
            && (request.inPlace ==> forall i :: 0 <= i < |items| ==> !HitsSource(items, i))
  {
    hide PlanFile, Content, ResolutionFor, PlanFirst, HitsSource;
    var items := Plan(fs, tree, files, request, sha).value;
    PlanFirstIs(fs, tree, files, |files|, request, sha, items);
  }

  /** A folder is planned exactly when every file can be planned, no two claim one identity or destination, every
      resolution names a file, there is a file at all, and in place no file is sent to where another one is. */
  lemma PlanExactly(fs: FileSystem, tree: Tree, files: seq<string>, request: PlanRequest, sha: Sha,
                    items: seq<Planned>)
    requires Stored(fs, tree, files)
    ensures Plan(fs, tree, files, request, sha) == Ok(items) <==>
            && PlannedFrom(fs, tree, files, |files|, request, sha, items)
            && items != []
            && (forall key :: key in request.resolutions ==>
                  exists i :: 0 <= i < |files| && Casefold(files[i]) == key)
            && (request.inPlace ==>
                  forall i, j :: 0 <= i < |items| && 0 <= j < |items| && i != j ==>
                    Casefold(items[i].destination) != Casefold(items[j].source) ||
                    Casefold(items[i].destination) == Casefold(items[i].source))
  {
    hide PlanFile, Content, ResolutionFor, PlanFirst, Casefold, IdentityKey;
    PlanFirstIs(fs, tree, files, |files|, request, sha, items);
    if PlanFirst(fs, tree, files, |files|, request, sha).Ok? {
      PlanFirstIs(fs, tree, files, |files|, request, sha, PlanFirst(fs, tree, files, |files|, request, sha).value);
    }
    CollisionsAre(items);
  }

  lemma CollisionsAre(items: seq<Planned>)
    ensures (exists i :: 0 <= i < |items| && HitsSource(items, i)) <==>
            exists i, j :: 0 <= i < |items| && 0 <= j < |items| && i != j
                           && Casefold(items[i].destination) == Casefold(items[j].source)
                           && Casefold(items[i].destination) != Casefold(items[i].source)
  {
    hide Casefold;
    if i :| 0 <= i < |items| && HitsSource(items, i) {
      var j :| 0 <= j < |items| && SourceKey(items[j]) == DestinationKey(items[i]);
      assert i != j && Casefold(items[i].destination) == Casefold(items[j].source)
             && Casefold(items[i].destination) != Casefold(items[i].source);
    }
    if i, j :| 0 <= i < |items| && 0 <= j < |items| && i != j
               && Casefold(items[i].destination) == Casefold(items[j].source)
               && Casefold(items[i].destination) != Casefold(items[i].source) {
      assert SourceKey(items[j]) == DestinationKey(items[i]);
      assert HitsSource(items, i);
    }
  }

  // ----- When a plan can lose a file -----------------------------------------------------

  /** One file moves away while another, listed under a case variant of its path, is only respelled to
      that very path. */
  predicate Overtaken(items: seq<Planned>, i: nat, j: nat)
    requires i < |items| && j < |items|
  {
    && i != j
    && SourceKey(items[i]) == SourceKey(items[j])
    && items[j].destination == items[i].source
    && SourceKey(items[i]) != DestinationKey(items[i])
  }

  predicate NoneOvertaken(fs: FileSystem, items: seq<Planned>) {
    fs.CaseInsensitive? || forall i, j :: 0 <= i < |items| && 0 <= j < |items| ==> !Overtaken(items, i, j)
  }

  /** An in-place plan loses nothing exactly when the file system ignores case or no file is overtaken. */
  lemma PlanLosesNothing(fs: FileSystem, tree: Tree, files: seq<string>, request: PlanRequest, sha: Sha)
    requires IsListing(fs, tree, files) && Stored(fs, tree, files)
    requires request.inPlace && Plan(fs, tree, files, request, sha).Ok?
    ensures var items := Plan(fs, tree, files, request, sha).value;
            LosesNothing(fs, RecordsOf(items, sha)) <==> NoneOvertaken(fs, items)
  {
    hide PlanFile, Content, ResolutionFor, Plan, Casefold, LosesNothing, NoneOvertaken, IsListing, Overtaken;
    PlanRecords(fs, tree, files, request, sha);
    var items := Plan(fs, tree, files, request, sha).value;
    PlannedSources(fs, tree, files, request, sha, items);
    if !LosesNothing(fs, RecordsOf(items, sha)) {
      LostIsOvertaken(fs, tree, files, items, sha);
    }
    if !NoneOvertaken(fs, items) {
      OvertakenIsLost(fs, items, sha);
    }
  }

  lemma LostIsOvertaken(fs: FileSystem, tree: Tree, files: seq<string>, items: seq<Planned>, sha: Sha)
    requires IsListing(fs, tree, files) && |items| == |files|
    requires forall i :: 0 <= i < |files| ==> items[i].source == files[i]
    requires forall i :: 0 <= i < |items| ==> !HitsSource(items, i)
    requires !LosesNothing(fs, RecordsOf(items, sha))
    ensures !NoneOvertaken(fs, items)
  {
    hide Casefold, Planned.Rendered, HitsSource, Key, IsSql, Less;
    var records := RecordsOf(items, sha);
    var j :| 0 <= j < |records| && Unlinked(fs, records, Key(fs, records[j].destination));
    var i :| 0 <= i < |records| && records[i].Moves() && Key(fs, records[i].source) == Key(fs, records[j].destination);
    KeyFold(fs, records[i].source, records[j].destination);
    OwnSource(items, i, j);
    KeyIs(fs, items[j].destination, items[i].source);
    KeyIs(fs, items[i].source, items[j].source);
    assert Key(fs, files[i]) != Key(fs, files[j]);
    assert Overtaken(items, i, j);
  }

  lemma OwnSource(items: seq<Planned>, i: nat, j: nat)
    requires i < |items| && j < |items| && !HitsSource(items, j) && SourceKey(items[i]) == DestinationKey(items[j])
    ensures SourceKey(items[j]) == DestinationKey(items[j])
  {
  }

  lemma KeyIs(fs: FileSystem, a: string, b: string)
    ensures Key(fs, a) == Key(fs, b) <==> if fs.CaseInsensitive? then Casefold(a) == Casefold(b) else a == b
  {
  }

  lemma OvertakenIsLost(fs: FileSystem, items: seq<Planned>, sha: Sha)
    requires !NoneOvertaken(fs, items)
    ensures !LosesNothing(fs, RecordsOf(items, sha))
  {
    hide Casefold, Planned.Rendered;
    var records := RecordsOf(items, sha);
    var i, j :| 0 <= i < |items| && 0 <= j < |items| && Overtaken(items, i, j);
    assert records[i].Moves() && Key(fs, records[i].source) == Key(fs, records[j].destination);
    assert Unlinked(fs, records, Key(fs, records[j].destination));
  }

  lemma PlannedSources(fs: FileSystem, tree: Tree, files: seq<string>, request: PlanRequest, sha: Sha,
                       items: seq<Planned>)
    requires Stored(fs, tree, files) && PlannedFrom(fs, tree, files, |files|, request, sha, items)
    ensures |items| == |files| && forall i :: 0 <= i < |files| ==> items[i].source == files[i]
    ensures forall i :: 0 <= i < |files| ==> items[i].content == Content(fs, tree, files[i])
    ensures forall i :: 0 <= i < |files| ==> items[i].destination == Destination(items[i].header, Name(files[i]))
  {
    hide ReadIdentity, Classify, Resolve, IdentityKey, DestinationKey, Destination, Content;
  }

  // ----- When a plan can be applied ------------------------------------------------------

  function Texts(items: seq<Planned>): (r: seq<string>)
    ensures |r| == |items|
  {
    seq(|items|, i requires 0 <= i < |items| => items[i].Rendered())
  }

  /** The header of the file a plan was made from is claimed by few enough categories. */
  predicate FewClaims(p: Planned, request: PlanRequest, sha: Sha) {
    ReadIdentity(p.content, request.engine, sha).Ok? ==>
      ClaimCount(ReadIdentity(p.content, request.engine, sha).value.0, request.rules) <= 64
  }

  lemma PlannedHeader(p: Planned, request: PlanRequest, resolution: Option<Resolution>, sha: Sha)
    requires PlanFile(p.source, p.content, request, resolution, sha) == Ok(p)
    ensures ReadIdentity(p.content, request.engine, sha).Ok?
    ensures var (h, body) := ReadIdentity(p.content, request.engine, sha).value;
            && Valid(h) && p.body == body
            && Classify(h, request.rules).Ok?
            && Resolve(Classify(h, request.rules).value, resolution) == Ok(p.header)
  {
    hide ReadIdentity, Classify, Destination, Valid, CheckManaged, Resolve;
    ReadIsChecked(p.content, request.engine, sha);
  }

  /** A planned header is valid exactly when an owner resolved it or at most 64 categories claim it. */
  lemma PlannedHeaderIsValid(p: Planned, request: PlanRequest, resolution: Option<Resolution>, sha: Sha)
    requires request.rules.Some? ==> ValidRules(request.rules.value)
    requires PlanFile(p.source, p.content, request, resolution, sha) == Ok(p)
    ensures Valid(p.header) <==> resolution.Some? || FewClaims(p, request, sha)
  {
    hide ReadIdentity, Classify, Valid, ClaimCount, ValidRules, PlanFile;
    PlannedHeader(p, request, resolution, sha);
    ClassifiedValid(ReadIdentity(p.content, request.engine, sha).value.0, request.rules);
  }

  lemma StagedOne(fs: FileSystem, tree: Tree, p: Planned, request: PlanRequest, resolution: Option<Resolution>,
                  sha: Sha)
    requires Key(fs, p.source) in tree && p.content == Content(fs, tree, p.source)
    requires PlanFile(p.source, p.content, request, resolution, sha) == Ok(p)
    ensures StageText(fs, tree, RecordOf(p, sha), request.engine, sha)
         == if Valid(p.header) then Ok(p.Rendered()) else Err(INVALID_HEADER)
  {
    hide ReadIdentity, Classify, Valid, Render, Parse, ReadText, PlanFile;
    PlannedHeader(p, request, resolution, sha);
    BodyIsRead(p.content, request.engine, sha);
  }

  lemma BodyIsRead(content: string, engine: Engine, sha: Sha)
    requires ReadIdentity(content, engine, sha).Ok?
    ensures BodyOf(content, engine, sha) == Ok(ReadIdentity(content, engine, sha).value.1)
  {
    hide Parse, Adopt;
  }

  predicate ValidFirst(items: seq<Planned>, n: nat)
    requires n <= |items|
  {
    forall i :: 0 <= i < n ==> Valid(items[i].header)
  }

  lemma ValidNext(items: seq<Planned>, n: nat)
    requires 0 < n <= |items|
    ensures ValidFirst(items, n) <==> ValidFirst(items, n - 1) && Valid(items[n - 1].header)
  {
    hide Valid;
  }

  lemma StagedItem(fs: FileSystem, tree: Tree, files: seq<string>, items: seq<Planned>, i: nat, request: PlanRequest,
                   sha: Sha)
    requires Stored(fs, tree, files) && PlannedFrom(fs, tree, files, |files|, request, sha, items) && i < |items|
    ensures StageText(fs, tree, RecordOf(items[i], sha), request.engine, sha)
         == if Valid(items[i].header) then Ok(items[i].Rendered()) else Err(INVALID_HEADER)
  {
    hide StageText, Planned.Rendered, Valid, PlannedFrom, PlanFile, Content, ResolutionFor;
    PlannedSources(fs, tree, files, request, sha, items);
    PlannedItem(fs, tree, files, items, i, request, sha);
    StagedOne(fs, tree, items[i], request, ResolutionFor(files, i, request.resolutions), sha);
  }

  /** On the tree it was made from, a plan stages exactly when every planned header is valid, and then
      it stages the texts it rendered. */
  lemma {:induction false} StagedFirst(fs: FileSystem, tree: Tree, files: seq<string>, items: seq<Planned>, n: nat,
                                       request: PlanRequest, sha: Sha)
    requires Stored(fs, tree, files) && PlannedFrom(fs, tree, files, |files|, request, sha, items) && n <= |items|
    ensures Stage(fs, tree, RecordsOf(items, sha), n, request.engine, sha)
         == if ValidFirst(items, n) then Ok(Texts(items)[..n]) else Err(INVALID_HEADER)
  {
    hide *;
    StageUnfold(fs, tree, RecordsOf(items, sha), n, request.engine, sha);
    TextsUnfold(items, n, sha);
    if n > 0 {
      StagedFirst(fs, tree, files, items, n - 1, request, sha);
      StagedItem(fs, tree, files, items, n - 1, request, sha);
      ValidNext(items, n);
    } else {
      NoneInvalid(items);
    }
  }

  lemma NoneInvalid(items: seq<Planned>)
    ensures ValidFirst(items, 0)
  {
  }

  lemma StageUnfold(fs: FileSystem, tree: Tree, records: seq<Record>, n: nat, engine: Engine, sha: Sha)
    requires n <= |records|
    ensures Stage(fs, tree, records, n, engine, sha)
         == if n == 0 then Ok([]) else
            match Stage(fs, tree, records, n - 1, engine, sha)
            case Err(code) => Err(code)
            case Ok(done) =>
              match StageText(fs, tree, records[n - 1], engine, sha)
              case Err(code) => Err(code)
              case Ok(text) => Ok(done + [text])
  {
    hide StageText;
  }

  lemma TextsUnfold(items: seq<Planned>, n: nat, sha: Sha)
    requires n <= |items|
    ensures n == 0 ==> Texts(items)[..n] == []
    ensures n > 0 ==>
              && Texts(items)[..n] == Texts(items)[..n - 1] + [items[n - 1].Rendered()]
              && RecordsOf(items, sha)[n - 1] == RecordOf(items[n - 1], sha)
  {
    hide Planned.Rendered;
  }

  lemma PlannedItem(fs: FileSystem, tree: Tree, files: seq<string>, items: seq<Planned>, i: nat, request: PlanRequest,
                    sha: Sha)
    requires Stored(fs, tree, files) && PlannedFrom(fs, tree, files, |files|, request, sha, items) && i < |items|
    ensures |items| == |files| && Key(fs, files[i]) in tree
    ensures PlanFile(files[i], Content(fs, tree, files[i]), request, ResolutionFor(files, i, request.resolutions), sha)
         == Ok(items[i])
  {
    hide PlanFile, Content, ResolutionFor, IdentityKey, DestinationKey;
  }

  /** A plan can be applied to the tree it was made from exactly when every object in it was resolved by
      an owner or is claimed by at most 64 categories; then the texts rendered are the texts staged. */
  lemma StagedFromPlan(fs: FileSystem, tree: Tree, files: seq<string>, request: PlanRequest, sha: Sha)
    requires request.rules.Some? ==> ValidRules(request.rules.value)
    requires Stored(fs, tree, files) && Plan(fs, tree, files, request, sha).Ok?
    ensures var items := Plan(fs, tree, files, request, sha).value;
            var staged := Stage(fs, tree, RecordsOf(items, sha), |items|, request.engine, sha);
            && |items| == |files|
            && (staged.Ok? <==> forall i :: 0 <= i < |items| ==>
                  ResolutionFor(files, i, request.resolutions).Some? || FewClaims(items[i], request, sha))
            && staged == if staged.Ok? then Ok(Texts(items)) else Err(INVALID_HEADER)
  {
    hide Plan, PlanFile, Content, ResolutionFor, PlannedFrom, Stage, Valid, FewClaims, ValidRules, Planned.Rendered;
    var items := Plan(fs, tree, files, request, sha).value;
    PlanRecords(fs, tree, files, request, sha);
    PlannedSources(fs, tree, files, request, sha, items);
    StagedFirst(fs, tree, files, items, |items|, request, sha);
    forall i | 0 <= i < |items|
      ensures Valid(items[i].header) <==>
                ResolutionFor(files, i, request.resolutions).Some? || FewClaims(items[i], request, sha)
    {
      PlannedItem(fs, tree, files, items, i, request, sha);
      PlannedHeaderIsValid(items[i], request, ResolutionFor(files, i, request.resolutions), sha);
    }
    assert Texts(items)[..|items|] == Texts(items);
  }

  // ----- The manifest --------------------------------------------------------------------

  /** Every entry names a file whose text has the recorded hash. */
  predicate ManifestHolds(fs: FileSystem, tree: Tree, manifest: seq<Entry>, sha: Sha) {
    forall i :: 0 <= i < |manifest| ==>
      Key(fs, manifest[i].path) in tree && sha(Content(fs, tree, manifest[i].path)) == manifest[i].sha256
  }

  /** A rendered text is read back as it was written. */
  lemma RenderedReadsBack(h: Header, body: string)
    requires NoReturn(body)
    ensures ReadText(Render(h, body)) == Render(h, body)
  {
    hide Members, Json.Dump;
    NewlinesUnified(Render(h, body));
    PrefixStarts(Json.Dump(Json.Obj(Members(h))), body);
  }

  lemma PrefixStarts(json: string, body: string)
    requires forall i :: 0 <= i < |json| ==> json[i] >= ' '
    requires NoReturn(body)
    ensures var s := HEADER_PREFIX + json + "\n" + body; s[0] == '-' && NoReturn(s)
  {
    assert NoReturn(HEADER_PREFIX);
    assert NoReturn(json);
  }

  lemma StagedReadsBack(fs: FileSystem, tree: Tree, r: Record, engine: Engine, sha: Sha)
    requires StageText(fs, tree, r, engine, sha).Ok?
    ensures var text := StageText(fs, tree, r, engine, sha).value;
            ReadText(text) == text && sha(text) == r.outputHash
  {
    hide Render, Parse, ReadIdentity, NoReturn, UniversalNewlines, Valid;
    var stored := tree[Key(fs, r.source)].text;
    var content := ReadText(stored);
    NewlinesUnified(if stored != "" && stored[0] == '\U{FEFF}' then stored[1..] else stored);
    if Parse(content).Ok? {
      ParsedBody(content);
    } else {
      BodyHasNoReturn(content, engine, sha);
    }
    RenderedReadsBack(r.header, BodyOf(content, engine, sha).value);
  }

  function EntriesOf(records: seq<Record>): (r: seq<Entry>)
    ensures |r| == |records|
  {
    seq(|records|, i requires 0 <= i < |records| => Entry(records[i].destination, records[i].outputHash))
  }

  /** A classification replaces the manifest by its own entries, and all of them hold. */
  lemma ClassificationManifest(fs: FileSystem, tree: Tree, records: seq<Record>, engine: Engine, sha: Sha)
    requires Stage(fs, tree, records, |records|, engine, sha).Ok?
    requires DistinctDestinations(records) && LosesNothing(fs, records)
    ensures ManifestHolds(fs, ApplyTree(fs, tree, records, Stage(fs, tree, records, |records|, engine, sha).value),
                          EntriesOf(records), sha)
  {
    hide Stage, StageText, ApplyTree, DistinctDestinations, LosesNothing, ReadText;
    var texts := Stage(fs, tree, records, |records|, engine, sha).value;
    ApplyOutcome(fs, tree, records, texts);
    forall j | 0 <= j < |records|
      ensures sha(ReadText(texts[j])) == records[j].outputHash
    {
      StagedText(fs, tree, records, |records|, engine, sha, j);
      StagedReadsBack(fs, tree, records[j], engine, sha);
    }
  }

  /** The entries a resolution of one file leaves alone. */
  function Preserved(manifest: seq<Entry>, r: Record): seq<Entry> {
    if manifest == [] then []
    else
      var e := manifest[|manifest| - 1];
      var before := Preserved(manifest[..|manifest| - 1], r);
      if Casefold(e.path) == Casefold(r.source) || Casefold(e.path) == Casefold(r.destination) then before
      else before + [e]
  }

  lemma {:induction false} PreservedIs(manifest: seq<Entry>, r: Record)
    ensures forall e :: e in Preserved(manifest, r) <==>
      e in manifest && Casefold(e.path) != Casefold(r.source) && Casefold(e.path) != Casefold(r.destination)
  {
    if manifest != [] {
      PreservedIs(manifest[..|manifest| - 1], r);
      assert manifest == manifest[..|manifest| - 1] + [manifest[|manifest| - 1]];
    }
  }

  /** A resolution rewrites one file and its entry; every other entry still holds. */
  lemma ResolutionManifest(fs: FileSystem, tree: Tree, manifest: seq<Entry>, r: Record, engine: Engine, sha: Sha)
    requires ManifestHolds(fs, tree, manifest, sha) && StageText(fs, tree, r, engine, sha).Ok?
    ensures ManifestHolds(fs, ApplyTree(fs, tree, [r], [StageText(fs, tree, r, engine, sha).value]),
                          Preserved(manifest, r) + EntriesOf([r]), sha)
  {
    hide StageText, Casefold, ReadText;
    var text := StageText(fs, tree, r, engine, sha).value;
    StagedReadsBack(fs, tree, r, engine, sha);
    PreservedIs(manifest, r);
    var after := ApplyTree(fs, tree, [r], [text]);
    OneApplied(fs, tree, r, text);
    KeyFold(fs, r.source, r.destination);
    var entries := Preserved(manifest, r) + EntriesOf([r]);
    forall i | 0 <= i < |entries|
      ensures Key(fs, entries[i].path) in after && sha(Content(fs, after, entries[i].path)) == entries[i].sha256
    {
      if i < |Preserved(manifest, r)| {
        assert entries[i] in Preserved(manifest, r);
        var k :| 0 <= k < |manifest| && manifest[k] == entries[i];
        KeyFold(fs, entries[i].path, r.source);
        KeyFold(fs, entries[i].path, r.destination);
      }
    }
  }

  lemma OneApplied(fs: FileSystem, tree: Tree, r: Record, text: string)
    ensures ApplyTree(fs, tree, [r], [text]) ==
            var written := Write(fs, tree, r.destination, text);
            if r.Moves() then Remove(fs, written, r.source) else written
  {
    WriteOne(fs, tree, r, text);
    UnlinkOne(fs, Write(fs, tree, r.destination, text), r);
  }

  lemma WriteOne(fs: FileSystem, tree: Tree, r: Record, text: string)
    ensures WriteAll(fs, tree, [r], [text]) == Write(fs, tree, r.destination, text)
  {
    assert [r][..0] == [] && [text][..0] == [];
  }

  lemma UnlinkOne(fs: FileSystem, tree: Tree, r: Record)
    ensures UnlinkAll(fs, tree, [r]) == if r.Moves() then Remove(fs, tree, r.source) else tree
  {
    assert [r][..0] == [];
  }
}
