/** The round trip: what is assembled passes the inventory check against its own batches. */
module AssembledOutput {
  import opened Text
  import opened ExportPaths
  import opened Assembly
  import opened AssemblyLaws
  import opened BundleValidation

  // ----- Declared and merged files -------------------------------------------------------

  predicate Measures(h: Hasher, content: Content, d: Declared) {
    h.size(content) == d.size && h.sha(content) == d.sha
  }

  lemma {:induction false} FilePiecesIncluded(h: Hasher, b: Bundle, m: Manifest, paths: seq<string>, k: nat, x: Piece)
    requires k < |paths| <= |m.managed|
    requires x in FilePieces(h, b, m, m.managed[k], paths[k])
    ensures x in DeclaredPieces(h, b, m, paths)
  {
    hide FilePieces;
    if k < |paths| - 1 {
      FilePiecesIncluded(h, b, m, paths[..|paths| - 1], k, x);
    }
  }

  lemma {:induction false} FilePiecesOrigin(h: Hasher, b: Bundle, m: Manifest, paths: seq<string>, x: Piece)
    returns (k: nat)
    requires |paths| <= |m.managed| && x in DeclaredPieces(h, b, m, paths)
    ensures k < |paths| && x in FilePieces(h, b, m, m.managed[k], paths[k])
  {
    hide FilePieces;
    if x in DeclaredPieces(h, b, m, paths[..|paths| - 1]) {
      k := FilePiecesOrigin(h, b, m, paths[..|paths| - 1], x);
    } else {
      k := |paths| - 1;
    }
  }

  lemma NoFaults(pieces: seq<Piece>, x: Piece)
    requires AbsorbAll(EMPTY, pieces).Ok? && x in pieces
    ensures !x.Fault?
    ensures x.FilePiece? ==>
              && x.path in AbsorbAll(EMPTY, pieces).value.files
              && AbsorbAll(EMPTY, pieces).value.files[x.path] == x.content
  {
    hide AbsorbAll, FileAgrees, ItemAgrees;
    AbsorbIs(EMPTY, pieces);
    var i :| 0 <= i < |pieces| && pieces[i] == x;
    assert PieceAgrees(EMPTY, pieces, pieces[i]);
  }

  /** Every declared file outside the aggregates is merged, with the size and hash declared. */
  lemma DeclaredIsMerged(h: Hasher, bundles: seq<Bundle>, b: Bundle, k: nat)
    requires AbsorbAll(EMPTY, AllPieces(h, bundles)).Ok?
    requires b in bundles && Refused(b).None? && k < |ManifestOf(b).managed|
    requires Normalised(ManifestOf(b).managed[k].path) !in AGGREGATED
    ensures var d, files := ManifestOf(b).managed[k], AbsorbAll(EMPTY, AllPieces(h, bundles)).value.files;
            Normalised(d.path) in files && Measures(h, files[Normalised(d.path)], d)
  {
    hide AllPieces, AbsorbAll, Refused, Normalised, IsNormal, Managed, BundlePieces, DeclaredPieces, ItemPieces;
    var m := ManifestOf(b);
    BundleUnfold(h, b);
    ManagedAreNormal(m.managed);
    var paths := Managed(m.managed).value;
    var d, path := m.managed[k], paths[k];
    assert path == Normalised(d.path) by {
      assert SafePath(d.path) == Ok(path);
    }
    assert FilePieces(h, b, m, d, path) != [];
    var x := FilePieces(h, b, m, d, path)[0];
    FilePiecesIncluded(h, b, m, paths, k, x);
    PiecesOf(h, bundles, x);
    NoFaults(AllPieces(h, bundles), x);
  }

  /** Every merged file was declared so by some batch. */
  lemma MergedIsDeclared(h: Hasher, bundles: seq<Bundle>, p: string) returns (b: Bundle, d: Declared)
    requires AbsorbAll(EMPTY, AllPieces(h, bundles)).Ok?
    requires p in AbsorbAll(EMPTY, AllPieces(h, bundles)).value.files
    ensures b in bundles && Refused(b).None? && d in ManifestOf(b).managed
    ensures Normalised(d.path) == p && Measures(h, AbsorbAll(EMPTY, AllPieces(h, bundles)).value.files[p], d)
  {
    hide AllPieces, AbsorbAll, Normalised, IsNormal, Managed, BundlePieces, DeclaredPieces, Refused, FilePieces;
    var pieces := AllPieces(h, bundles);
    AbsorbIs(EMPTY, pieces);
    var x := FilePiece(p, AbsorbAll(EMPTY, pieces).value.files[p]);
    assert x in pieces;
    PiecesOf(h, bundles, x);
    b :| b in bundles && x in BundlePieces(h, b);
    d := FileOrigin(h, b, x);
  }

  lemma FileOrigin(h: Hasher, b: Bundle, x: Piece) returns (d: Declared)
    requires x in BundlePieces(h, b) && x.FilePiece?
    ensures Refused(b).None? && d in ManifestOf(b).managed
    ensures Normalised(d.path) == x.path && Measures(h, x.content, d)
  {
    hide Refused, Normalised, IsNormal, Managed, DeclaredPieces;
    BundleAccepted(h, b, x);
    var m := ManifestOf(b);
    BundleUnfold(h, b);
    ManagedAreNormal(m.managed);
    var paths := Managed(m.managed).value;
    assert x !in ItemPieces(m.items);
    var k := FilePiecesOrigin(h, b, m, paths, x);
    d := m.managed[k];
    assert SafePath(d.path) == Ok(paths[k]);
  }

  lemma BundleAccepted(h: Hasher, b: Bundle, x: Piece)
    requires x in BundlePieces(h, b) && x.FilePiece?
    ensures Refused(b).None?
  {
  }

  // ----- What the assembled inventory lists ----------------------------------------------

  predicate OnePerPath(files: seq<Declared>) {
    forall i, j :: 0 <= i < |files| && 0 <= j < |files| && files[i].path == files[j].path ==> files[i] == files[j]
  }

  lemma {:induction false} SubmittedOnce(files: seq<Declared>, d: Declared)
    requires OnePerPath(files)
    ensures IsSubmitted(files, d) <==> d in files && d.path != MANIFEST
  {
    hide IsSubmitted;
    if files == [] {
      NothingSubmitted(d);
    } else {
      var init, last := files[..|files| - 1], files[|files| - 1];
      assert files == init + [last];
      SubmittedOnce(init, d);
      if last.path == d.path {
        LastIsSubmitted(init, last, d);
      } else {
        OthersSubmitted(init, last, d);
      }
    }
  }

  lemma NothingSubmitted(d: Declared)
    ensures !IsSubmitted([], d)
  {
  }

  lemma {:induction false} ManifestEntryLast(files: seq<Declared>, d: Declared)
    requires d.path == MANIFEST && forall i :: 0 <= i < |files| ==> files[i].path != MANIFEST
    ensures ManifestEntry(files + [d]) == Some(d)
  {
    if files != [] {
      ManifestEntryLast(files[1..], d);
      assert (files + [d])[1..] == files[1..] + [d];
    }
  }

  lemma SortedListsExactly(h: Hasher, incoming: Files)
    ensures forall d :: d in SortFiles(DescribeAll(h, incoming, Others(incoming))) <==>
              d.path in incoming && d.path != MANIFEST && d == Describe(h, d.path, incoming[d.path])
  {
    hide SortFiles;
    var paths := Others(incoming);
    var all := DescribeAll(h, incoming, paths);
    SortKeeps(all);
    forall d ensures d in SortFiles(all) <==>
              d.path in incoming && d.path != MANIFEST && d == Describe(h, d.path, incoming[d.path])
    {
      assert d in SortFiles(all) <==> d in multiset(all);
      if d.path in incoming && d.path != MANIFEST && d == Describe(h, d.path, incoming[d.path]) {
        var i :| 0 <= i < |paths| && paths[i] == d.path;
        assert all[i] == d;
      }
    }
  }

  lemma InventoryLists(h: Hasher, tree: Files, incoming: Files, d: Declared)
    requires SelfDescribing(h, incoming)
    requires forall p :: p in incoming ==> p in tree && tree[p] == incoming[p]
    ensures InventoryOutput(h, tree).Ok?
    ensures HashesMatch(h, InventoryOutput(h, tree).value)
    ensures IsSubmitted(InventoryOutput(h, tree).value.files, d) <==>
            d.path in incoming && d.path != MANIFEST && d == Describe(h, d.path, incoming[d.path])
  {
    hide InventoryOutput, SortFiles, DescribeAll, IsSubmitted, AreNormal, ManifestEntry, Others;
    InventoryIs(h, tree, incoming);
    SortedListsExactly(h, incoming);
    var sorted := SortFiles(DescribeAll(h, incoming, Others(incoming)));
    var last := Describe(h, MANIFEST, incoming[MANIFEST]);
    var files := sorted + [last];
    forall i | 0 <= i < |sorted| ensures sorted[i].path in incoming && sorted[i].path != MANIFEST
                                      && sorted[i] == Describe(h, sorted[i].path, incoming[sorted[i].path]) {
      assert sorted[i] in sorted;
    }
    ManifestEntryLast(sorted, last);
    SubmittedOnce(files, d);
  }

  // ----- The round trip ------------------------------------------------------------------

  /** Every batch lists its files under normalised paths. */
  predicate PathsNormal(manifests: seq<Manifest>) {
    forall i, k :: 0 <= i < |manifests| && 0 <= k < |manifests[i].managed| ==>
      Normalised(manifests[i].managed[k].path) == manifests[i].managed[k].path
  }

  predicate KnownProfile(manifests: seq<Manifest>) {
    manifests != [] && (manifests[0].profile == "ai" || manifests[0].profile == "full")
  }

  lemma ReportsOfProfile(manifests: seq<Manifest>)
    requires manifests != [] && OneProfile(manifests)
    ensures ReportsOf(Profiles(manifests)).Some? <==> KnownProfile(manifests)
    ensures KnownProfile(manifests) ==>
              ReportsOf(Profiles(manifests)).value
              == (if manifests[0].profile == "full" then FULL_REPORTS else AI_REPORTS)
  {
  }

  /** The assembled files: the merge, the profile's reports and the manifest. */
  ghost predicate IsAssembled(incoming: Files, merged: Files, manifests: seq<Manifest>)
    requires manifests != []
  {
    && (forall p :: p !in AGGREGATED ==> (p in incoming <==> p in merged) && (p in merged ==> incoming[p] == merged[p]))
    && (forall p :: p in AGGREGATED - {MANIFEST} ==>
          (p in incoming <==> p in (if manifests[0].profile == "full" then FULL_REPORTS else AI_REPORTS)))
  }

  lemma CompleteIsAssembled(h: Hasher, manifests: seq<Manifest>, m: Merged)
    requires manifests != [] && Complete(h, manifests, m).Ok?
    requires forall p :: p in m.files ==> p !in AGGREGATED
    ensures IsAssembled(Complete(h, manifests, m).value, m.files, manifests)
  {
    hide Complete, Reports, NewManifest, Counts, FULL_REPORTS, AI_REPORTS, AGGREGATED, MANIFEST;
    CompleteUnfold(h, manifests, m);
    ReportsAreAggregated(manifests[0].profile, ExportIds(manifests), m);
    ManifestIsAggregated();
  }

  lemma ManifestIsAggregated()
    ensures MANIFEST in AGGREGATED
  {
  }

  lemma MergedAreDeclaredAsIs(h: Hasher, bundles: seq<Bundle>, d: Declared)
    requires forall i :: 0 <= i < |bundles| ==> Refused(bundles[i]).None?
    requires AbsorbAll(EMPTY, AllPieces(h, bundles)).Ok? && PathsNormal(Manifests(bundles)) && d.path !in AGGREGATED
    ensures var files := AbsorbAll(EMPTY, AllPieces(h, bundles)).value.files;
            d.path in files && Describe(h, d.path, files[d.path]) == d <==> IsDeclared(Manifests(bundles), d)
  {
    hide AbsorbAll, AllPieces, Refused, Normalised, AGGREGATED;
    var files := AbsorbAll(EMPTY, AllPieces(h, bundles)).value.files;
    if d.path in files && Describe(h, d.path, files[d.path]) == d {
      var b, e := MergedIsDeclared(h, bundles, d.path);
      var i :| 0 <= i < |bundles| && bundles[i] == b;
      var k :| 0 <= k < |ManifestOf(b).managed| && ManifestOf(b).managed[k] == e;
      assert Manifests(bundles)[i].managed[k] == e;
      assert e == d;
    }
    if IsDeclared(Manifests(bundles), d) {
      var i :| 0 <= i < |bundles| && d in Manifests(bundles)[i].managed;
      var k :| 0 <= k < |Manifests(bundles)[i].managed| && Manifests(bundles)[i].managed[k] == d;
      assert bundles[i] in bundles;
      DeclaredIsMerged(h, bundles, bundles[i], k);
    }
  }

  /** A path declared in another spelling is in no inventory. */
  lemma SpellingIsLost(h: Hasher, bundles: seq<Bundle>, i: nat, k: nat)
    requires forall j :: 0 <= j < |bundles| ==> Refused(bundles[j]).None?
    requires AbsorbAll(EMPTY, AllPieces(h, bundles)).Ok?
    requires i < |bundles| && k < |Manifests(bundles)[i].managed|
    requires Normalised(Manifests(bundles)[i].managed[k].path) != Manifests(bundles)[i].managed[k].path
    ensures var d := Manifests(bundles)[i].managed[k];
            d.path !in AGGREGATED && IsDeclared(Manifests(bundles), d)
            && d.path !in AbsorbAll(EMPTY, AllPieces(h, bundles)).value.files
  {
    hide AbsorbAll, AllPieces, Refused, Normalised, AGGREGATED, IsSafe;
    AggregatedAreNormal();
    MergedArePlain(h, bundles);
  }

  /** An accepted assembly's inventory passes the inventory check against its batches exactly when their
      profile is a known one and they list their files under normalised paths. */
  lemma AssembledIsAccepted(h: Hasher, tree: Files, bundles: seq<Bundle>, allowDeleteStale: bool)
    requires Assemble(h, tree, bundles, allowDeleteStale).1.Ok?
    requires forall i :: 0 <= i < |Unique(bundles)| ==> Refused(Unique(bundles)[i]).None?
    ensures var manifests := Manifests(Unique(bundles));
            Accepted(Validate(h, manifests, Assemble(h, tree, bundles, allowDeleteStale).1.value)) <==>
            KnownProfile(manifests) && PathsNormal(manifests)
  {
    hide Assemble, Incoming, Refused, Unique, AbsorbAll, AllPieces, Complete, Validate, Accepted, Matches, KnownProfile,
         PathsNormal, IsAssembled, InventoryOutput, SelfDescribing, Manifests, OneProfile;
    AssembleOutcome(h, tree, bundles, allowDeleteStale);
    var (after, result) := Assemble(h, tree, bundles, allowDeleteStale);
    IncomingNeedsBatches(h, bundles);
    IncomingIs(h, bundles);
    IncomingDescribes(h, bundles);
    var unique, incoming := Unique(bundles), Incoming(h, bundles).value;
    var manifests := Manifests(unique);
    var merged := AbsorbAll(EMPTY, AllPieces(h, unique)).value;
    MergedArePlain(h, unique);
    CompleteOk(h, manifests, merged);
    CompleteIsAssembled(h, manifests, merged);
    AcceptedIff(h, manifests, result.value);
    if PathsNormal(manifests) {
      NormalMatches(h, after, unique, incoming);
    } else {
      SpelledMismatches(h, after, unique, incoming);
    }
  }

  lemma IncomingNeedsBatches(h: Hasher, bundles: seq<Bundle>)
    requires Incoming(h, bundles).Ok?
    ensures bundles != []
  {
    hide Complete, AllPieces, AbsorbAll, Unique;
  }

  lemma NormalMatches(h: Hasher, tree: Files, bundles: seq<Bundle>, incoming: Files)
    requires bundles != [] && forall i :: 0 <= i < |bundles| ==> Refused(bundles[i]).None?
    requires AbsorbAll(EMPTY, AllPieces(h, bundles)).Ok? && OneProfile(Manifests(bundles))
    requires IsAssembled(incoming, AbsorbAll(EMPTY, AllPieces(h, bundles)).value.files, Manifests(bundles))
    requires SelfDescribing(h, incoming)
    requires forall p :: p in incoming ==> p in tree && tree[p] == incoming[p]
    requires PathsNormal(Manifests(bundles))
    ensures InventoryOutput(h, tree).Ok?
    ensures Matches(h, Manifests(bundles), InventoryOutput(h, tree).value) <==> KnownProfile(Manifests(bundles))
  {
    hide *;
    InventoryLists(h, tree, incoming, Declared("", 0, ""));
    ReportsOfProfile(Manifests(bundles));
    if KnownProfile(Manifests(bundles)) {
      KnownMatches(h, tree, bundles, incoming);
    } else {
      UnknownProfileFails(h, Manifests(bundles), InventoryOutput(h, tree).value);
    }
  }

  lemma UnknownProfileFails(h: Hasher, manifests: seq<Manifest>, inventory: Inventory)
    requires ReportsOf(Profiles(manifests)).None?
    ensures !Matches(h, manifests, inventory)
  {
  }

  lemma KnownMatches(h: Hasher, tree: Files, bundles: seq<Bundle>, incoming: Files)
    requires bundles != [] && forall i :: 0 <= i < |bundles| ==> Refused(bundles[i]).None?
    requires AbsorbAll(EMPTY, AllPieces(h, bundles)).Ok? && OneProfile(Manifests(bundles))
    requires IsAssembled(incoming, AbsorbAll(EMPTY, AllPieces(h, bundles)).value.files, Manifests(bundles))
    requires SelfDescribing(h, incoming)
    requires forall p :: p in incoming ==> p in tree && tree[p] == incoming[p]
    requires PathsNormal(Manifests(bundles)) && KnownProfile(Manifests(bundles))
    requires InventoryOutput(h, tree).Ok?
    ensures Matches(h, Manifests(bundles), InventoryOutput(h, tree).value)
  {
    hide *;
    var manifests, inventory := Manifests(bundles), InventoryOutput(h, tree).value;
    ReportsOfProfile(manifests);
    InventoryLists(h, tree, incoming, Declared("", 0, ""));
    forall d: Declared | d.path !in AGGREGATED
      ensures IsSubmitted(inventory.files, d) <==> IsDeclared(manifests, d)
    {
      InventoryLists(h, tree, incoming, d);
      OutsideFiles(incoming, AbsorbAll(EMPTY, AllPieces(h, bundles)).value.files, manifests, d.path);
      MergedAreDeclaredAsIs(h, bundles, d);
    }
    forall p | p in AGGREGATED - {MANIFEST}
      ensures p in ReportsOf(Profiles(manifests)).value <==>
                exists d: Declared :: d.path == p && IsSubmitted(inventory.files, d)
    {
      ReportListed(h, tree, incoming, AbsorbAll(EMPTY, AllPieces(h, bundles)).value.files, manifests, p);
    }
    MatchesFold(h, manifests, inventory);
  }

  lemma OutsideFiles(incoming: Files, merged: Files, manifests: seq<Manifest>, p: string)
    requires manifests != [] && IsAssembled(incoming, merged, manifests) && p !in AGGREGATED
    ensures p != MANIFEST && (p in incoming <==> p in merged) && (p in merged ==> incoming[p] == merged[p])
  {
  }

  lemma ReportListed(h: Hasher, tree: Files, incoming: Files, merged: Files, manifests: seq<Manifest>, p: string)
    requires manifests != [] && IsAssembled(incoming, merged, manifests) && p in AGGREGATED - {MANIFEST}
    requires SelfDescribing(h, incoming)
    requires forall q :: q in incoming ==> q in tree && tree[q] == incoming[q]
    requires InventoryOutput(h, tree).Ok?
    ensures p in (if manifests[0].profile == "full" then FULL_REPORTS else AI_REPORTS) <==>
            exists d: Declared :: d.path == p && IsSubmitted(InventoryOutput(h, tree).value.files, d)
  {
    hide AGGREGATED, FULL_REPORTS, AI_REPORTS, MANIFEST, SelfDescribing, InventoryOutput, IsSubmitted;
    forall d: Declared | d.path == p
      ensures IsSubmitted(InventoryOutput(h, tree).value.files, d) <==>
                p in incoming && d == Describe(h, p, incoming[p])
    {
      InventoryLists(h, tree, incoming, d);
    }
    if p in incoming {
      assert IsSubmitted(InventoryOutput(h, tree).value.files, Describe(h, p, incoming[p]));
    }
  }

  lemma MatchesFold(h: Hasher, manifests: seq<Manifest>, inventory: Inventory)
    requires ReportsOf(Profiles(manifests)).Some? && HashesMatch(h, inventory)
    requires forall d: Declared :: d.path !in AGGREGATED ==>
               (IsSubmitted(inventory.files, d) <==> IsDeclared(manifests, d))
    requires forall p :: p in AGGREGATED - {MANIFEST} ==>
               (p in ReportsOf(Profiles(manifests)).value <==>
                exists d: Declared :: d.path == p && IsSubmitted(inventory.files, d))
    ensures Matches(h, manifests, inventory)
  {
    hide SortFiles, ManifestIsRecorded, HashesMatch, IsSubmitted, IsDeclared;
    HashesAreRecorded(h, inventory);
  }

  lemma SpelledMismatches(h: Hasher, tree: Files, bundles: seq<Bundle>, incoming: Files)
    requires bundles != [] && forall i :: 0 <= i < |bundles| ==> Refused(bundles[i]).None?
    requires AbsorbAll(EMPTY, AllPieces(h, bundles)).Ok?
    requires IsAssembled(incoming, AbsorbAll(EMPTY, AllPieces(h, bundles)).value.files, Manifests(bundles))
    requires SelfDescribing(h, incoming)
    requires forall p :: p in incoming ==> p in tree && tree[p] == incoming[p]
    requires !PathsNormal(Manifests(bundles))
    ensures InventoryOutput(h, tree).Ok?
    ensures !Matches(h, Manifests(bundles), InventoryOutput(h, tree).value)
  {
    hide AbsorbAll, AllPieces, Refused, Normalised, AGGREGATED, IsAssembled, SelfDescribing, InventoryOutput, ReportsOf,
         Profiles, HashesMatch, IsSubmitted, IsDeclared, MANIFEST, Manifests;
    var manifests := Manifests(bundles);
    var i, k :| 0 <= i < |manifests| && 0 <= k < |manifests[i].managed|
      && Normalised(manifests[i].managed[k].path) != manifests[i].managed[k].path;
    var d := manifests[i].managed[k];
    SpellingIsLost(h, bundles, i, k);
    OutsideFiles(incoming, AbsorbAll(EMPTY, AllPieces(h, bundles)).value.files, manifests, d.path);
    InventoryLists(h, tree, incoming, d);
  }

  // ----- A batch that assembles and is refused -------------------------------------------

  const SPELLED := "./a.sql"
  const PLAIN := "a.sql"

  /** One file, listed under a path that is not normalised; the archive holds it under the normalised one. */
  function SpelledManifest(h: Hasher, content: Content): Manifest {
    Manifest("ai", Some("first"), [], [Declared(SPELLED, h.size(content), h.sha(content))], [], None, "")
  }

  function SpelledBatch(h: Hasher, content: Content): Bundle {
    Bundle("archive", map[PLAIN := content, MANIFEST := Yaml(SpelledManifest(h, content))])
  }

  lemma PlainIsSafe(name: string)
    requires IsPart(name)
    ensures IsSafe(name)
  {
    hide Split;
    SplitPlain(name);
  }

  lemma SpelledIsNormalised()
    ensures SafePath(SPELLED) == Ok(PLAIN) && Normalised(SPELLED) != SPELLED
  {
    hide Split;
    assert SPELLED == "." + "/" + PLAIN;
    SplitPlain(".");
    SplitAppend(".", PLAIN);
    KeptSpelled();
  }

  lemma KeptSpelled()
    ensures Kept(["."] + [PLAIN]) == [PLAIN]
  {
    assert (["."] + [PLAIN])[..1] == ["."];
    assert ["."][..0] == [];
  }

  lemma ManagedOne(d: Declared)
    requires SafePath(d.path).Ok?
    ensures Managed([d]) == Ok([SafePath(d.path).value])
  {
    hide SafePath;
    assert [d][..0] == [];
    assert Managed([]) == Ok([]);
    assert [] + [SafePath(d.path).value] == [SafePath(d.path).value];
  }

  lemma SpelledManaged(h: Hasher, content: Content)
    ensures Managed(SpelledManifest(h, content).managed) == Ok([PLAIN])
  {
    hide SafePath;
    SpelledIsNormalised();
    ManagedOne(SpelledManifest(h, content).managed[0]);
  }

  lemma SpelledIsRead(h: Hasher, content: Content)
    ensures Refused(SpelledBatch(h, content)).None?
    ensures ManifestOf(SpelledBatch(h, content)) == SpelledManifest(h, content)
  {
    hide IsSafe, Managed;
    SpelledManaged(h, content);
    PlainIsSafe(PLAIN);
    PlainIsSafe(MANIFEST);
  }

  lemma PiecesOfOne(h: Hasher, b: Bundle)
    ensures AllPieces(h, [b]) == BundlePieces(h, b)
  {
    hide BundlePieces;
    assert [b][..0] == [];
    assert AllPieces(h, []) == [];
  }

  lemma DeclaredOne(h: Hasher, b: Bundle, m: Manifest, path: string)
    requires |m.managed| == 1
    ensures DeclaredPieces(h, b, m, [path]) == FilePieces(h, b, m, m.managed[0], path)
  {
    hide FilePieces;
    assert [path][..0] == [];
    assert DeclaredPieces(h, b, m, []) == [];
  }

  lemma SpelledPieces(h: Hasher, content: Content)
    ensures AllPieces(h, [SpelledBatch(h, content)]) == [FilePiece(PLAIN, content)]
  {
    hide Refused, Managed, AllPieces, DeclaredPieces, FilePieces;
    var b, m := SpelledBatch(h, content), SpelledManifest(h, content);
    SpelledIsRead(h, content);
    SpelledManaged(h, content);
    PiecesOfOne(h, b);
    DeclaredOne(h, b, m, PLAIN);
    SpelledPiece(h, content);
  }

  lemma SpelledPiece(h: Hasher, content: Content)
    ensures var b, m := SpelledBatch(h, content), SpelledManifest(h, content);
            FilePieces(h, b, m, m.managed[0], PLAIN) == [FilePiece(PLAIN, content)]
  {
    hide AGGREGATED;
    NotAggregated();
  }

  lemma NotAggregated()
    ensures PLAIN !in AGGREGATED && PLAIN != FULL_SQLFLUFF
  {
  }

  lemma NoItems()
    ensures Accounted(Counts(map[]))
  {
    forall statuses: set<string> ensures WithStatus(map[], statuses) == {} {
    }
  }

  lemma SpelledMerges(h: Hasher, content: Content)
    ensures AbsorbAll(EMPTY, [FilePiece(PLAIN, content)]) == Ok(Merged(map[PLAIN := content], map[]))
  {
  }

  lemma SpelledIncoming(h: Hasher, content: Content)
    ensures Unique([SpelledBatch(h, content)]) == [SpelledBatch(h, content)]
    ensures Incoming(h, [SpelledBatch(h, content)]).Ok?
  {
    hide AbsorbAll, AllPieces, Refused, Complete, Accounted, Counts, SpelledBatch;
    var b := SpelledBatch(h, content);
    assert [b][..0] == [];
    SpelledPieces(h, content);
    SpelledMerges(h, content);
    SpelledIsRead(h, content);
    IncomingIs(h, [b]);
    NoItems();
    CompleteOk(h, Manifests([b]), Merged(map[PLAIN := content], map[]));
  }

  /** The condition is met by real batches: this one assembles into an empty root, and the inventory is
      refused. */
  lemma SpelledIsRefused(h: Hasher, content: Content)
    ensures var assembled := Assemble(h, map[], [SpelledBatch(h, content)], false);
            && assembled.1.Ok?
            && !Accepted(Validate(h, [SpelledManifest(h, content)], assembled.1.value))
  {
    hide Assemble, Incoming, Refused, Unique, Validate, Accepted, SpelledBatch, PathsNormal, Ready, Previous,
         SpelledManifest, ManifestOf;
    var b := SpelledBatch(h, content);
    SpelledIsRead(h, content);
    SpelledIncoming(h, content);
    EmptyRootIsReady(h, [b]);
    AssembleOutcome(h, map[], [b], false);
    assert Manifests([b]) == [SpelledManifest(h, content)];
    AssembledIsAccepted(h, map[], [b], false);
    SpelledPath(h, content);
  }

  lemma EmptyRootIsReady(h: Hasher, bundles: seq<Bundle>)
    requires Incoming(h, bundles).Ok?
    ensures Ready(h, map[], bundles, false)
  {
    hide Incoming, AllPieces, AbsorbAll, Complete;
  }

  lemma SpelledPath(h: Hasher, content: Content)
    ensures !PathsNormal([SpelledManifest(h, content)])
  {
    hide Normalised;
    SpelledIsNormalised();
    assert [SpelledManifest(h, content)][0].managed[0].path == SPELLED;
  }
}
