/** Assembling verified export batches into one output root, taking its inventory, and validating that
    inventory against the batches. */
module Assembly {
  import opened Text
  import opened ExportPaths
  import FileTree
  import Headers = ManagedHeader

  // ----- Batches -------------------------------------------------------------------------

  datatype Declared = Declared(path: string, size: nat, sha: string)

  datatype Item = Item(objectId: string, status: string, detail: string)

  datatype FormatCounts = FormatCounts(requested: nat, formatted: nat, parseFailed: nat, formatFailed: nat)

  /** A manifest document; a batch has one export identifier, an assembled output lists several. */
  datatype Manifest = Manifest(
    profile: string,
    exportId: Option<string>,
    exportIds: seq<string>,
    managed: seq<Declared>,
    items: seq<Item>,
    counts: Option<FormatCounts>,
    rest: string)

  /** File contents: plain bytes, a manifest, or an aggregate report with what it is made from. */
  datatype Content =
    | Bytes(text: string)
    | Yaml(manifest: Manifest)
    | Report(name: string, exportIds: seq<string>, batches: nat, counts: FormatCounts, items: seq<Item>,
             listed: seq<string>)

  /** The measures recorded for a file and for a whole inventory. */
  datatype Hasher = Hasher(size: Content -> nat, sha: Content -> string, listing: seq<Declared> -> string)

  function Describe(h: Hasher, path: string, content: Content): Declared {
    Declared(path, h.size(content), h.sha(content))
  }

  type Files = map<string, Content>

  datatype Bundle = Bundle(archiveSha: string, files: Files)

  const MANIFEST := "manifest.yaml"
  const SUMMARY := "reports/export-summary.md"
  const FULL_INTEGRITY := "reports/integrity-report.json"
  const FULL_SQLFLUFF := "reports/sqlfluff-report.json"
  const AI_INDEX := "context-index.md"
  const AI_INTEGRITY := "reports/integrity-report.md"
  const AI_SQLFLUFF := "reports/sqlfluff-report.md"

  const FULL_REPORTS: set<string> := {SUMMARY, FULL_INTEGRITY, FULL_SQLFLUFF}
  const AI_REPORTS: set<string> := {AI_INDEX, SUMMARY, AI_INTEGRITY, AI_SQLFLUFF}
  const AGGREGATED: set<string> := {MANIFEST} + FULL_REPORTS + AI_REPORTS

  const DUPLICATE_PATH := "DUPLICATE_OUTPUT_PATH"
  const BUNDLE_REQUIRED := "BUNDLE_REQUIRED"
  const MANIFEST_MISSING := "MANIFEST_MISSING"
  const MANIFEST_INVALID := "MANIFEST_INVALID"
  const BATCH_CONFLICT := "EXPORT_BATCH_CONFLICT"
  const FILE_MISSING := "ASSEMBLED_FILE_MISSING"
  const FILE_MISMATCH := "ASSEMBLED_FILE_MISMATCH"
  const INTEGRITY_FAILED := "BUNDLE_INTEGRITY_FAILED"
  const PROFILE_CONFLICT := "EXPORT_PROFILE_CONFLICT"
  const ACCOUNTING_INVALID := "SQLFLUFF_ACCOUNTING_INVALID"
  const STALE_NEEDS_APPROVAL := "STALE_MANAGED_FILES_REQUIRE_APPROVAL"
  const UNMANAGED_CONFLICT := "UNMANAGED_FILE_CONFLICT"
  const UNHANDLED := "INTERNAL_ERROR"

  /** The normalised managed paths of a manifest, in its order. */
  function Managed(managed: seq<Declared>): Result<seq<string>> {
    if managed == [] then Ok([]) else
    match Managed(managed[..|managed| - 1])
    case Err(code) => Err(code)
    case Ok(paths) =>
      match SafePath(managed[|managed| - 1].path)
      case Err(code) => Err(code)
      case Ok(path) => if path in paths then Err(DUPLICATE_PATH) else Ok(paths + [path])
  }

  /** Archives with the same digest are one batch. */
  function Unique(bundles: seq<Bundle>): seq<Bundle> {
    if bundles == [] then [] else
    var kept := Unique(bundles[..|bundles| - 1]);
    var last := bundles[|bundles| - 1];
    if exists i :: 0 <= i < |kept| && kept[i].archiveSha == last.archiveSha then kept else kept + [last]
  }

  // ----- Merging -------------------------------------------------------------------------

  /** What reading the batches meets, in order. */
  datatype Piece = SqlfluffPiece(item: Item) | FilePiece(path: string, content: Content) | Fault(code: string)

  datatype Merged = Merged(files: Files, items: map<string, Item>)

  const EMPTY := Merged(map[], map[])

  /** One piece: anything that disagrees with what was merged before is a conflict. */
  function Absorb(m: Merged, piece: Piece): Result<Merged> {
    match piece
    case Fault(code) => Err(code)
    case SqlfluffPiece(item) =>
      if item.objectId in m.items && m.items[item.objectId] != item then Err(BATCH_CONFLICT)
      else Ok(m.(items := m.items[item.objectId := item]))
    case FilePiece(path, content) =>
      if path in m.files && m.files[path] != content then Err(BATCH_CONFLICT)
      else Ok(m.(files := m.files[path := content]))
  }

  function AbsorbAll(m: Merged, pieces: seq<Piece>): Result<Merged>
    decreases |pieces|
  {
    if pieces == [] then Ok(m) else
    match Absorb(m, pieces[0])
    case Err(code) => Err(code)
    case Ok(next) => AbsorbAll(next, pieces[1..])
  }

  function ItemPieces(items: seq<Item>): (r: seq<Piece>)
    ensures |r| == |items|
  {
    seq(|items|, i requires 0 <= i < |items| => SqlfluffPiece(items[i]))
  }

  /** One declared file of a batch. */
  function FilePieces(h: Hasher, b: Bundle, m: Manifest, d: Declared, path: string): seq<Piece> {
    if path !in b.files then [Fault(FILE_MISSING)] else
    var content := b.files[path];
    if h.size(content) != d.size || h.sha(content) != d.sha then [Fault(INTEGRITY_FAILED)]
    else if path == FULL_SQLFLUFF then
      if m.items != [] then [] else if content.Report? then ItemPieces(content.items) else [Fault(UNHANDLED)]
    else if path in AGGREGATED then []
    else [FilePiece(path, content)]
  }

  function DeclaredPieces(h: Hasher, b: Bundle, m: Manifest, paths: seq<string>): seq<Piece>
    requires |paths| <= |m.managed|
  {
    if paths == [] then []
    else DeclaredPieces(h, b, m, paths[..|paths| - 1])
         + FilePieces(h, b, m, m.managed[|paths| - 1], paths[|paths| - 1])
  }

  predicate SafeNames(files: Files) {
    forall name :: name in files ==> IsSafe(name)
  }

  /** The failure of a batch as a whole, before its files are looked at. */
  function Refused(b: Bundle): Option<string> {
    if !SafeNames(b.files) then Some(UNSAFE_BUNDLE)
    else if MANIFEST !in b.files then Some(MANIFEST_MISSING)
    else if !b.files[MANIFEST].Yaml? then Some(MANIFEST_INVALID)
    else match Managed(b.files[MANIFEST].manifest.managed)
      case Err(code) => Some(code)
      case Ok(_) => None
  }

  lemma {:induction false} ManagedLength(managed: seq<Declared>)
    ensures Managed(managed).Ok? ==> |Managed(managed).value| == |managed|
  {
    if managed != [] {
      ManagedLength(managed[..|managed| - 1]);
    }
  }

  function BundlePieces(h: Hasher, b: Bundle): seq<Piece> {
    if Refused(b).Some? then [Fault(Refused(b).value)] else
    var m := b.files[MANIFEST].manifest;
    ManagedLength(m.managed);
    ItemPieces(m.items) + DeclaredPieces(h, b, m, Managed(m.managed).value)
  }

  function AllPieces(h: Hasher, bundles: seq<Bundle>): seq<Piece> {
    if bundles == [] then []
    else AllPieces(h, bundles[..|bundles| - 1]) + BundlePieces(h, bundles[|bundles| - 1])
  }

  // ----- Completing the merge ------------------------------------------------------------

  function ManifestOf(b: Bundle): Manifest
    requires Refused(b).None?
  {
    b.files[MANIFEST].manifest
  }

  function Manifests(bundles: seq<Bundle>): (r: seq<Manifest>)
    requires forall i :: 0 <= i < |bundles| ==> Refused(bundles[i]).None?
    ensures |r| == |bundles|
  {
    seq(|bundles|, i requires 0 <= i < |bundles| => ManifestOf(bundles[i]))
  }

  predicate OneProfile(manifests: seq<Manifest>) {
    forall i :: 0 <= i < |manifests| ==> manifests[i].profile == manifests[0].profile
  }

  function WithStatus(items: map<string, Item>, statuses: set<string>): set<string> {
    set id | id in items && items[id].status in statuses
  }

  function Counts(items: map<string, Item>): FormatCounts {
    FormatCounts(|items|,
                 |WithStatus(items, {"formatted"})|,
                 |WithStatus(items, {"parse_failed"})|,
                 |WithStatus(items, {"format_failed", "rolled_back"})|)
  }

  predicate Accounted(c: FormatCounts) {
    c.requested == c.formatted + c.parseFailed + c.formatFailed
  }

  predicate IsListed(path: string) {
    && (FileTree.EndsWith(path, ".sql") || FileTree.EndsWith(path, ".md")
        || FileTree.EndsWith(path, ".csv") || FileTree.EndsWith(path, ".yaml"))
    && !("reports/" <= path)
  }

  function Listed(paths: seq<string>): seq<string> {
    if paths == [] then []
    else Listed(paths[..|paths| - 1]) + (if IsListed(paths[|paths| - 1]) then [paths[|paths| - 1]] else [])
  }

  function ItemList(items: map<string, Item>, ids: seq<string>): seq<Item>
    requires forall i :: 0 <= i < |ids| ==> ids[i] in items
  {
    seq(|ids|, i requires 0 <= i < |ids| => items[ids[i]])
  }

  /** The aggregate reports of the profile, rebuilt from every batch. */
  function Reports(profile: string, exportIds: seq<string>, m: Merged): Files {
    var n := |exportIds|;
    var counts := Counts(m.items);
    if profile == "full" then
      map[SUMMARY := Report(SUMMARY, exportIds, n, counts, [], []),
          FULL_SQLFLUFF := Report(FULL_SQLFLUFF, [], 0, counts, ItemList(m.items, Ordered(m.items.Keys)), []),
          FULL_INTEGRITY := Report(FULL_INTEGRITY, [], n, counts, [], [])]
    else
      map[SUMMARY := Report(SUMMARY, exportIds, n, counts, [], []),
          AI_INDEX := Report(AI_INDEX, [], 0, counts, [], Listed(Ordered(m.files.Keys + {SUMMARY}))),
          AI_SQLFLUFF := Report(AI_SQLFLUFF, [], 0, counts, [], []),
          AI_INTEGRITY := Report(AI_INTEGRITY, [], n, counts, [], [])]
  }

  function DescribeAll(h: Hasher, files: Files, paths: seq<string>): (r: seq<Declared>)
    requires forall i :: 0 <= i < |paths| ==> paths[i] in files
    ensures |r| == |paths|
    ensures forall i :: 0 <= i < |paths| ==> r[i] == Describe(h, paths[i], files[paths[i]])
  {
    seq(|paths|, i requires 0 <= i < |paths| => Describe(h, paths[i], files[paths[i]]))
  }

  /** The new manifest: the first batch's, with the union's files, identifiers and counts. */
  function NewManifest(h: Hasher, base: Manifest, exportIds: seq<string>, counts: FormatCounts,
                       files: Files): Manifest {
    Manifest(base.profile, None, exportIds, DescribeAll(h, files, Ordered(files.Keys)), [], Some(counts), base.rest)
  }

  predicate HasIds(manifests: seq<Manifest>) {
    forall i :: 0 <= i < |manifests| ==> manifests[i].exportId.Some?
  }

  function ExportIds(manifests: seq<Manifest>): (r: seq<string>)
    requires HasIds(manifests)
    ensures |r| == |manifests|
  {
    seq(|manifests|, i requires 0 <= i < |manifests| => manifests[i].exportId.value)
  }

  function Complete(h: Hasher, manifests: seq<Manifest>, m: Merged): Result<Files>
    requires manifests != []
  {
    if !OneProfile(manifests) then Err(PROFILE_CONFLICT)
    else if !Accounted(Counts(m.items)) then Err(ACCOUNTING_INVALID)
    else if !HasIds(manifests) then Err(UNHANDLED)
    else
      var ids := ExportIds(manifests);
      var files := m.files + Reports(manifests[0].profile, ids, m);
      Ok(files[MANIFEST := Yaml(NewManifest(h, manifests[0], ids, Counts(m.items), files))])
  }

  /** The files an assembly wants in the output root. */
  function Incoming(h: Hasher, bundles: seq<Bundle>): Result<Files> {
    if bundles == [] then Err(BUNDLE_REQUIRED) else
    var unique := Unique(bundles);
    match AbsorbAll(EMPTY, AllPieces(h, unique))
    case Err(code) => Err(code)
    case Ok(m) =>
      UniqueNonempty(bundles);
      AbsorbedAreRead(h, unique);
      Complete(h, Manifests(unique), m)
  }

  lemma {:induction false} UniqueNonempty(bundles: seq<Bundle>)
    requires bundles != []
    ensures Unique(bundles) != []
  {
    if |bundles| > 1 {
      UniqueNonempty(bundles[..|bundles| - 1]);
    }
  }

  lemma {:induction false} AbsorbAllAppend(m: Merged, a: seq<Piece>, b: seq<Piece>)
    ensures AbsorbAll(m, a + b) == match AbsorbAll(m, a) case Err(code) => Err(code) case Ok(next) => AbsorbAll(next, b)
    decreases |a|
  {
    hide Absorb;
    if a == [] {
      assert a + b == b;
    } else {
      assert (a + b)[1..] == a[1..] + b;
      if Absorb(m, a[0]).Ok? {
        AbsorbAllAppend(Absorb(m, a[0]).value, a[1..], b);
      }
    }
  }

  lemma {:induction false} AbsorbedAreRead(h: Hasher, bundles: seq<Bundle>)
    requires AbsorbAll(EMPTY, AllPieces(h, bundles)).Ok?
    ensures forall i :: 0 <= i < |bundles| ==> Refused(bundles[i]).None?
  {
    hide Refused, ItemPieces, DeclaredPieces, Managed;
    if bundles != [] {
      var init, last := bundles[..|bundles| - 1], bundles[|bundles| - 1];
      AbsorbAllAppend(EMPTY, AllPieces(h, init), BundlePieces(h, last));
      AbsorbedAreRead(h, init);
      assert bundles == init + [last];
    }
  }

  // ----- Writing the output root ---------------------------------------------------------

  function Previous(tree: Files): Result<set<string>> {
    if MANIFEST !in tree then Ok({})
    else if !tree[MANIFEST].Yaml? then Err(MANIFEST_INVALID)
    else match Managed(tree[MANIFEST].manifest.managed)
      case Err(code) => Err(code)
      case Ok(paths) => Ok((set p | p in paths) + {MANIFEST})
  }

  predicate Protected(tree: Files, incoming: Files, managed: set<string>, path: string)
    requires path in incoming
  {
    path in tree && path !in managed && tree[path] != incoming[path]
  }

  /** Writes in order until a file that is not managed, and differs, stands in the way. */
  function WriteAll(tree: Files, incoming: Files, managed: set<string>, order: seq<string>): (Files, bool)
    requires forall i :: 0 <= i < |order| ==> order[i] in incoming
    decreases |order|
  {
    if order == [] then (tree, true)
    else if Protected(tree, incoming, managed, order[0]) then (tree, false)
    else WriteAll(tree[order[0] := incoming[order[0]]], incoming, managed, order[1..])
  }

  datatype Inventory = Inventory(files: seq<Declared>, manifestSha: string, inventorySha: string)

  function InsertFile(d: Declared, sorted: seq<Declared>): seq<Declared> {
    if sorted == [] || Headers.Less(d.path, sorted[0].path) then [d] + sorted
    else [sorted[0]] + InsertFile(d, sorted[1..])
  }

  /** A stable sort by path. */
  function SortFiles(files: seq<Declared>): seq<Declared> {
    if files == [] then [] else InsertFile(files[|files| - 1], SortFiles(files[..|files| - 1]))
  }

  predicate FreshNames(managed: seq<Declared>) {
    && (forall i :: 0 <= i < |managed| ==> IsSafe(managed[i].path))
    && (forall i, j :: 0 <= i < j < |managed| ==> managed[i].path != managed[j].path)
  }

  /** The declared files, re-read in path order. */
  function ReadBack(h: Hasher, tree: Files, declared: seq<Declared>): Result<seq<Declared>> {
    if declared == [] then Ok([]) else
    match ReadBack(h, tree, declared[..|declared| - 1])
    case Err(code) => Err(code)
    case Ok(files) =>
      var d := declared[|declared| - 1];
      var path := Normalised(d.path);
      if path !in tree then Err(FILE_MISSING)
      else if Describe(h, d.path, tree[path]) != d then Err(FILE_MISMATCH)
      else Ok(files + [Describe(h, path, tree[path])])
  }

  function InventoryOutput(h: Hasher, tree: Files): Result<Inventory> {
    if MANIFEST !in tree then Err(MANIFEST_MISSING)
    else if !tree[MANIFEST].Yaml? then Err(MANIFEST_INVALID)
    else if !FreshNames(tree[MANIFEST].manifest.managed) then Err(MANIFEST_INVALID)
    else match ReadBack(h, tree, SortFiles(tree[MANIFEST].manifest.managed))
      case Err(code) => Err(code)
      case Ok(read) =>
        var files := read + [Describe(h, MANIFEST, tree[MANIFEST])];
        Ok(Inventory(files, h.sha(tree[MANIFEST]), h.listing(SortFiles(files))))
  }

  /** A whole assembly: nothing is written before every check on the batches, the previous manifest and
      the stale files has passed. */
  function Assemble(h: Hasher, tree: Files, bundles: seq<Bundle>, allowDeleteStale: bool): (Files, Result<Inventory>) {
    match Incoming(h, bundles)
    case Err(code) => (tree, Err(code))
    case Ok(incoming) =>
      match Previous(tree)
      case Err(code) => (tree, Err(code))
      case Ok(managed) =>
        var stale := managed - incoming.Keys;
        if stale != {} && !allowDeleteStale then (tree, Err(STALE_NEEDS_APPROVAL)) else
        var written := WriteAll(tree, incoming, managed, Ordered(incoming.Keys));
        if !written.1 then (written.0, Err(UNMANAGED_CONFLICT))
        else (written.0 - stale, InventoryOutput(h, written.0 - stale))
  }

  // ----- The service ---------------------------------------------------------------------

  method ManagedFromManifest(managed: seq<Declared>) returns (r: Result<seq<string>>)
    ensures r == Managed(managed)
  {
    hide SafePath;
    var paths := [];
    for i := 0 to |managed|
      invariant Managed(managed[..i]) == Ok(paths)
    {
      assert managed[..i + 1][..i] == managed[..i];
      match SafePath(managed[i].path)
      case Err(code) =>
        ManagedPrefix(managed, i + 1);
        return Err(code);
      case Ok(path) =>
        if path in paths {
          ManagedPrefix(managed, i + 1);
          return Err(DUPLICATE_PATH);
        }
        paths := paths + [path];
    }
    assert managed[..|managed|] == managed;
    return Ok(paths);
  }

  lemma {:induction false} ManagedPrefix(managed: seq<Declared>, n: nat)
    requires n <= |managed| && Managed(managed[..n]).Err?
    ensures Managed(managed) == Managed(managed[..n])
  {
    hide SafePath;
    if n == |managed| {
      assert managed[..n] == managed;
    } else {
      var init := managed[..|managed| - 1];
      assert init[..n] == managed[..n];
      ManagedPrefix(init, n);
    }
  }

  method AbsorbItems(start: Merged, items: seq<Item>) returns (r: Result<Merged>)
    ensures r == AbsorbAll(start, ItemPieces(items))
  {
    var m := start;
    var pieces := ItemPieces(items);
    for i := 0 to |items|
      invariant AbsorbAll(start, pieces) == AbsorbAll(m, pieces[i..])
    {
      var item := items[i];
      assert pieces[i..][1..] == pieces[i + 1..];
      if item.objectId in m.items && m.items[item.objectId] != item {
        return Err(BATCH_CONFLICT);
      }
      m := m.(items := m.items[item.objectId := item]);
    }
    return Ok(m);
  }

  method AbsorbFile(h: Hasher, b: Bundle, manifest: Manifest, d: Declared, path: string, m: Merged)
    returns (r: Result<Merged>)
    ensures r == AbsorbAll(m, FilePieces(h, b, manifest, d, path))
  {
    hide ItemPieces;
    if path !in b.files {
      return Err(FILE_MISSING);
    }
    var content := b.files[path];
    if h.size(content) != d.size || h.sha(content) != d.sha {
      return Err(INTEGRITY_FAILED);
    }
    if path == FULL_SQLFLUFF {
      if manifest.items != [] {
        return Ok(m);
      }
      if !content.Report? {
        return Err(UNHANDLED);
      }
      r := AbsorbItems(m, content.items);
      return;
    }
    if path in AGGREGATED {
      return Ok(m);
    }
    if path in m.files && m.files[path] != content {
      return Err(BATCH_CONFLICT);
    }
    return Ok(m.(files := m.files[path := content]));
  }

  method AbsorbBundle(h: Hasher, b: Bundle, start: Merged) returns (r: Result<Merged>)
    ensures r == AbsorbAll(start, BundlePieces(h, b))
  {
    hide AbsorbAll, ItemPieces, DeclaredPieces, FilePieces, Refused, Managed;
    FaultStops(start, b);
    if Refused(b).Some? {
      return Err(Refused(b).value);
    }
    var manifest := ManifestOf(b);
    ManagedLength(manifest.managed);
    var managed := ManagedFromManifest(manifest.managed);
    BundleUnfold(h, b);
    var paths := managed.value;
    r := AbsorbItems(start, manifest.items);
    AbsorbAllAppend(start, ItemPieces(manifest.items), DeclaredPieces(h, b, manifest, paths));
    if r.Err? {
      return;
    }
    var m := r.value;
    ghost var afterItems := m;
    NoDeclaredPieces(h, b, manifest, m);
    for k := 0 to |paths|
      invariant AbsorbAll(afterItems, DeclaredPieces(h, b, manifest, paths[..k])) == Ok(m)
    {
      DeclaredNext(h, b, manifest, paths, k, afterItems);
      r := AbsorbFile(h, b, manifest, manifest.managed[k], paths[k], m);
      if r.Err? {
        return;
      }
      m := r.value;
    }
    assert paths[..|paths|] == paths;
    return Ok(m);
  }

  lemma FaultStops(m: Merged, b: Bundle)
    ensures Refused(b).Some? ==> AbsorbAll(m, [Fault(Refused(b).value)]) == Err(Refused(b).value)
  {
    hide Refused;
  }

  lemma BundleUnfold(h: Hasher, b: Bundle)
    requires Refused(b).None?
    ensures var m := ManifestOf(b);
            && Managed(m.managed).Ok?
            && |Managed(m.managed).value| == |m.managed|
            && BundlePieces(h, b) == ItemPieces(m.items) + DeclaredPieces(h, b, m, Managed(m.managed).value)
  {
    hide ItemPieces, DeclaredPieces, Managed;
    ManagedLength(ManifestOf(b).managed);
  }

  lemma NoDeclaredPieces(h: Hasher, b: Bundle, manifest: Manifest, m: Merged)
    ensures AbsorbAll(m, DeclaredPieces(h, b, manifest, [])) == Ok(m)
  {
  }

  lemma DeclaredNext(h: Hasher, b: Bundle, manifest: Manifest, paths: seq<string>, k: nat, start: Merged)
    requires k < |paths| <= |manifest.managed|
    requires AbsorbAll(start, DeclaredPieces(h, b, manifest, paths[..k])).Ok?
    ensures var m := AbsorbAll(start, DeclaredPieces(h, b, manifest, paths[..k])).value;
            var next := AbsorbAll(m, FilePieces(h, b, manifest, manifest.managed[k], paths[k]));
            && AbsorbAll(start, DeclaredPieces(h, b, manifest, paths[..k + 1])) == next
            && (next.Err? ==> AbsorbAll(start, DeclaredPieces(h, b, manifest, paths)) == next)
  {
    hide AbsorbAll, FilePieces;
    assert paths[..k + 1][..k] == paths[..k];
    AbsorbAllAppend(start, DeclaredPieces(h, b, manifest, paths[..k]),
                    FilePieces(h, b, manifest, manifest.managed[k], paths[k]));
    if AbsorbAll(start, DeclaredPieces(h, b, manifest, paths[..k + 1])).Err? {
      DeclaredPrefixFails(h, b, manifest, paths, k + 1, start);
    }
  }

  lemma {:induction false} DeclaredPrefixFails(h: Hasher, b: Bundle, manifest: Manifest, paths: seq<string>, n: nat,
                                               start: Merged)
    requires n <= |paths| <= |manifest.managed|
    requires AbsorbAll(start, DeclaredPieces(h, b, manifest, paths[..n])).Err?
    ensures AbsorbAll(start, DeclaredPieces(h, b, manifest, paths))
         == AbsorbAll(start, DeclaredPieces(h, b, manifest, paths[..n]))
  {
    hide AbsorbAll, FilePieces;
    if n == |paths| {
      assert paths[..n] == paths;
    } else {
      var last := |paths| - 1;
      assert paths[..last][..n] == paths[..n];
      DeclaredPrefixFails(h, b, manifest, paths[..last], n, start);
      AbsorbAllAppend(start, DeclaredPieces(h, b, manifest, paths[..last]),
                      FilePieces(h, b, manifest, manifest.managed[last], paths[last]));
    }
  }

  method MergeBundles(h: Hasher, bundles: seq<Bundle>) returns (r: Result<Merged>)
    ensures r == AbsorbAll(EMPTY, AllPieces(h, bundles))
  {
    hide BundlePieces;
    var m := EMPTY;
    for i := 0 to |bundles|
      invariant AbsorbAll(EMPTY, AllPieces(h, bundles[..i])) == Ok(m)
    {
      BundleNext(h, bundles, i);
      r := AbsorbBundle(h, bundles[i], m);
      if r.Err? {
        return;
      }
      m := r.value;
    }
    assert bundles[..|bundles|] == bundles;
    return Ok(m);
  }

  lemma BundleNext(h: Hasher, bundles: seq<Bundle>, i: nat)
    requires i < |bundles|
    requires AbsorbAll(EMPTY, AllPieces(h, bundles[..i])).Ok?
    ensures var m := AbsorbAll(EMPTY, AllPieces(h, bundles[..i])).value;
            var next := AbsorbAll(m, BundlePieces(h, bundles[i]));
            && AbsorbAll(EMPTY, AllPieces(h, bundles[..i + 1])) == next
            && (next.Err? ==> AbsorbAll(EMPTY, AllPieces(h, bundles)) == next)
  {
    hide AbsorbAll, BundlePieces;
    assert bundles[..i + 1][..i] == bundles[..i];
    AbsorbAllAppend(EMPTY, AllPieces(h, bundles[..i]), BundlePieces(h, bundles[i]));
    if AbsorbAll(EMPTY, AllPieces(h, bundles[..i + 1])).Err? {
      BundlePrefixFails(h, bundles, i + 1);
    }
  }

  lemma {:induction false} BundlePrefixFails(h: Hasher, bundles: seq<Bundle>, n: nat)
    requires n <= |bundles|
    requires AbsorbAll(EMPTY, AllPieces(h, bundles[..n])).Err?
    ensures AbsorbAll(EMPTY, AllPieces(h, bundles)) == AbsorbAll(EMPTY, AllPieces(h, bundles[..n]))
  {
    hide AbsorbAll, BundlePieces;
    if n == |bundles| {
      assert bundles[..n] == bundles;
    } else {
      var last := |bundles| - 1;
      assert bundles[..last][..n] == bundles[..n];
      BundlePrefixFails(h, bundles[..last], n);
      AbsorbAllAppend(EMPTY, AllPieces(h, bundles[..last]), BundlePieces(h, bundles[last]));
    }
  }

  class OutputRoot {
    var tree: Files

    constructor (files: Files)
      ensures tree == files
    {
      tree := files;
    }

    /** Replaces the files one by one; false when an unmanaged file stood in the way. */
    method WriteFiles(incoming: Files, managed: set<string>) returns (done: bool)
      modifies this
      ensures (tree, done) == WriteAll(old(tree), incoming, managed, Ordered(incoming.Keys))
    {
      var order := Ordered(incoming.Keys);
      for i := 0 to |order|
        invariant WriteAll(old(tree), incoming, managed, order) == WriteAll(tree, incoming, managed, order[i..])
      {
        var path := order[i];
        assert order[i..][1..] == order[i + 1..];
        if path in tree && path !in managed && tree[path] != incoming[path] {
          return false;
        }
        tree := tree[path := incoming[path]];
      }
      return true;
    }

    method DeleteStale(stale: set<string>)
      modifies this
      ensures tree == old(tree) - stale
    {
      var order := Ordered(stale);
      var i := |order|;
      ghost var gone: set<string> := {};
      while i > 0
        invariant 0 <= i <= |order|
        invariant tree == old(tree) - gone && gone <= stale
        invariant forall k :: i <= k < |order| ==> order[k] in gone
      {
        i := i - 1;
        assert order[i] in order;
        gone := gone + {order[i]};
        if order[i] in tree {
          tree := tree - {order[i]};
        }
      }
      assert forall p :: p in stale ==> p in order;
    }

    method AssembleBundles(h: Hasher, bundles: seq<Bundle>, allowDeleteStale: bool) returns (r: Result<Inventory>)
      modifies this
      ensures (tree, r) == Assemble(h, old(tree), bundles, allowDeleteStale)
    {
      hide WriteAll, InventoryOutput, Complete, AbsorbAll, AllPieces, Unique, Managed;
      if bundles == [] {
        return Err(BUNDLE_REQUIRED);
      }
      var unique := Unique(bundles);
      var merged := MergeBundles(h, unique);
      if merged.Err? {
        return Err(merged.code);
      }
      UniqueNonempty(bundles);
      AbsorbedAreRead(h, unique);
      var complete := Complete(h, Manifests(unique), merged.value);
      if complete.Err? {
        return Err(complete.code);
      }
      var incoming := complete.value;
      var previous := Previous(tree);
      if previous.Err? {
        return Err(previous.code);
      }
      var stale := previous.value - incoming.Keys;
      if stale != {} && !allowDeleteStale {
        return Err(STALE_NEEDS_APPROVAL);
      }
      var done := WriteFiles(incoming, previous.value);
      if !done {
        return Err(UNMANAGED_CONFLICT);
      }
      DeleteStale(stale);
      return InventoryOutput(h, tree);
    }
  }
}
