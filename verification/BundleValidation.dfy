/** Validating a submitted inventory against the manifests of the batches it was assembled from. */
module BundleValidation {
  import opened Text
  import opened Assembly

  type Value = (nat, string)

  function ValueOf(d: Declared): Value {
    (d.size, d.sha)
  }

  // ----- The declared side ---------------------------------------------------------------

  datatype Tally = Tally(declared: map<string, Value>, conflicts: seq<string>)

  const NOTHING := Tally(map[], [])

  predicate Clash(declared: map<string, Value>, d: Declared) {
    d.path in declared && declared[d.path] != ValueOf(d)
  }

  /** One declared file; aggregated ones are rebuilt by assembly and are not compared. */
  function Declare(t: Tally, d: Declared): Tally {
    if d.path in AGGREGATED then t else
    Tally(t.declared[d.path := ValueOf(d)],
          if Clash(t.declared, d) then t.conflicts + [d.path] else t.conflicts)
  }

  function DeclareAll(t: Tally, managed: seq<Declared>): Tally {
    if managed == [] then t else Declare(DeclareAll(t, managed[..|managed| - 1]), managed[|managed| - 1])
  }

  function TallyAll(manifests: seq<Manifest>): Tally {
    if manifests == [] then NOTHING
    else DeclareAll(TallyAll(manifests[..|manifests| - 1]), manifests[|manifests| - 1].managed)
  }

  function Profiles(manifests: seq<Manifest>): set<string> {
    set i | 0 <= i < |manifests| :: manifests[i].profile
  }

  /** The aggregate reports an output of these batches holds. */
  function ReportsOf(profiles: set<string>): Option<set<string>> {
    if profiles == {"ai"} then Some(AI_REPORTS)
    else if profiles == {"full"} then Some(FULL_REPORTS)
    else None
  }

  // ----- The submitted side --------------------------------------------------------------

  /** A path listed twice counts with its last entry. */
  function Listing(files: seq<Declared>): map<string, Value> {
    if files == [] then map[] else
    var before := Listing(files[..|files| - 1]);
    var last := files[|files| - 1];
    if last.path == MANIFEST then before else before[last.path := ValueOf(last)]
  }

  /** The first entry of the manifest itself. */
  function ManifestEntry(files: seq<Declared>): Option<Declared> {
    if files == [] then None
    else if files[0].path == MANIFEST then Some(files[0])
    else ManifestEntry(files[1..])
  }

  predicate HashesMatch(h: Hasher, inventory: Inventory) {
    && ManifestEntry(inventory.files).Some?
    && ManifestEntry(inventory.files).value.sha == inventory.manifestSha
    && h.listing(SortFiles(inventory.files)) == inventory.inventorySha
  }

  datatype Verdict = Verdict(conflicts: seq<string>, profileKnown: bool, complete: bool)

  predicate Accepted(v: Verdict) {
    v.conflicts == [] && v.profileKnown && v.complete
  }

  predicate IsComplete(declared: map<string, Value>, reports: set<string>, submitted: map<string, Value>) {
    && (forall p :: p in declared ==> p in submitted && submitted[p] == declared[p])
    && reports <= submitted.Keys
    && submitted.Keys <= declared.Keys + reports
  }

  function Validate(h: Hasher, manifests: seq<Manifest>, inventory: Inventory): Verdict {
    var tally := TallyAll(manifests);
    var reports := ReportsOf(Profiles(manifests));
    Verdict(tally.conflicts,
            reports.Some?,
            IsComplete(tally.declared, if reports.Some? then reports.value else {}, Listing(inventory.files))
            && HashesMatch(h, inventory))
  }

  // ----- What is accepted ----------------------------------------------------------------

  /** Some batch declares the file. */
  predicate IsDeclared(manifests: seq<Manifest>, d: Declared) {
    d.path !in AGGREGATED && exists i :: 0 <= i < |manifests| && d in manifests[i].managed
  }

  /** The inventory lists the file, and nothing later for its path. */
  predicate IsSubmitted(files: seq<Declared>, d: Declared) {
    && d.path != MANIFEST
    && exists i :: 0 <= i < |files| && files[i] == d && forall j :: i < j < |files| ==> files[j].path != d.path
  }

  /** The first entry of the manifest itself has the hash recorded for it. */
  predicate ManifestIsRecorded(inventory: Inventory) {
    exists i :: 0 <= i < |inventory.files| && inventory.files[i].path == MANIFEST
                && inventory.files[i].sha == inventory.manifestSha
                && forall j :: 0 <= j < i ==> inventory.files[j].path != MANIFEST
  }

  /** The submitted files outside the reports are those declared, with their sizes and hashes; the reports
      are those of the profile; the recorded hashes are that of the manifest and that of the whole list in
      path order. */
  ghost predicate Matches(h: Hasher, manifests: seq<Manifest>, inventory: Inventory) {
    && ReportsOf(Profiles(manifests)).Some?
    && (forall d: Declared :: d.path !in AGGREGATED ==> (IsSubmitted(inventory.files, d) <==> IsDeclared(manifests, d)))
    && (forall p :: p in AGGREGATED - {MANIFEST} ==>
          (p in ReportsOf(Profiles(manifests)).value <==>
              exists d: Declared :: d.path == p && IsSubmitted(inventory.files, d)))
    && ManifestIsRecorded(inventory)
    && inventory.inventorySha == h.listing(SortFiles(inventory.files))
  }

  lemma {:induction false} ManifestEntryIs(files: seq<Declared>)
    ensures ManifestEntry(files).None? <==> forall i :: 0 <= i < |files| ==> files[i].path != MANIFEST
    ensures ManifestEntry(files).Some? ==>
              exists i :: 0 <= i < |files| && files[i] == ManifestEntry(files).value && files[i].path == MANIFEST
                          && forall j :: 0 <= j < i ==> files[j].path != MANIFEST
  {
    if files != [] && files[0].path != MANIFEST {
      ManifestEntryIs(files[1..]);
      assert files == [files[0]] + files[1..];
      if ManifestEntry(files[1..]).Some? {
        var i :| 0 <= i < |files[1..]| && files[1..][i] == ManifestEntry(files[1..]).value
                 && files[1..][i].path == MANIFEST && forall j :: 0 <= j < i ==> files[1..][j].path != MANIFEST;
        assert files[i + 1] == files[1..][i];
        assert forall j :: 0 < j < i + 1 ==> files[j] == files[1..][j - 1];
      } else {
        assert forall i :: 0 < i < |files| ==> files[i] == files[1..][i - 1];
      }
    }
  }

  lemma HashesAreRecorded(h: Hasher, inventory: Inventory)
    ensures HashesMatch(h, inventory) <==>
            ManifestIsRecorded(inventory) && inventory.inventorySha == h.listing(SortFiles(inventory.files))
  {
    hide ManifestEntry, SortFiles;
    ManifestEntryIs(inventory.files);
  }

  lemma {:induction false} ListingIs(files: seq<Declared>, d: Declared)
    ensures IsSubmitted(files, d) <==> d.path in Listing(files) && Listing(files)[d.path] == ValueOf(d)
  {
    if files != [] {
      var init, last := files[..|files| - 1], files[|files| - 1];
      ListingIs(init, d);
      assert files == init + [last];
      if last.path == d.path {
        LastIsSubmitted(init, last, d);
      } else {
        OthersSubmitted(init, last, d);
      }
    }
  }

  lemma LastIsSubmitted(init: seq<Declared>, last: Declared, d: Declared)
    requires last.path == d.path
    ensures IsSubmitted(init + [last], d) <==> d == last && d.path != MANIFEST
  {
    var files := init + [last];
    if d == last && d.path != MANIFEST {
      assert files[|init|] == d;
    }
    forall i | 0 <= i < |files| && files[i] == d && forall j :: i < j < |files| ==> files[j].path != d.path
      ensures d == last
    {
      assert files[|init|] == last;
    }
  }

  lemma OthersSubmitted(init: seq<Declared>, last: Declared, d: Declared)
    requires last.path != d.path
    ensures IsSubmitted(init + [last], d) <==> IsSubmitted(init, d)
  {
    var files := init + [last];
    if IsSubmitted(init, d) {
      var i :| 0 <= i < |init| && init[i] == d && forall j :: i < j < |init| ==> init[j].path != d.path;
      assert files[i] == d;
    }
    if IsSubmitted(files, d) {
      var i :| 0 <= i < |files| && files[i] == d && forall j :: i < j < |files| ==> files[j].path != d.path;
      assert init[i] == d;
      assert forall j :: i < j < |init| ==> init[j] == files[j];
    }
  }

  ghost predicate Describes(declared: map<string, Value>, claims: iset<Declared>) {
    forall p, v :: p in declared && declared[p] == v <==> Declared(p, v.0, v.1) in claims
  }

  ghost function Outside(managed: seq<Declared>): iset<Declared> {
    iset d | d in managed && d.path !in AGGREGATED
  }

  ghost predicate Functional(claims: iset<Declared>) {
    forall a, b :: a in claims && b in claims && a.path == b.path ==> a == b
  }

  ghost predicate Tallied(t: Tally, claims: iset<Declared>) {
    && (t.conflicts == [] <==> Functional(claims))
    && (t.conflicts == [] ==> Describes(t.declared, claims))
    && (forall p :: p in t.declared <==> exists d :: d in claims && d.path == p)
    && (forall p :: p in t.declared ==> Declared(p, t.declared[p].0, t.declared[p].1) in claims)
  }

  lemma DeclareTallies(t: Tally, claims: iset<Declared>, d: Declared)
    requires Tallied(t, claims)
    ensures Tallied(Declare(t, d), claims + Outside([d]))
  {
    if d.path in AGGREGATED {
      assert claims + Outside([d]) == claims;
    } else {
      assert claims + Outside([d]) == claims + iset{d};
      AddClaim(t, claims, d);
    }
  }

  lemma AddClaim(t: Tally, claims: iset<Declared>, d: Declared)
    requires Tallied(t, claims) && d.path !in AGGREGATED
    ensures Tallied(Declare(t, d), claims + iset{d})
  {
    hide Tallied;
    ClaimConflicts(t, claims, d);
    ClaimDomain(t, claims, d);
    TalliedFold(Declare(t, d), claims + iset{d});
  }

  lemma TalliedFold(t: Tally, claims: iset<Declared>)
    requires t.conflicts == [] <==> Functional(claims)
    requires t.conflicts == [] ==> Describes(t.declared, claims)
    requires forall p :: p in t.declared <==> exists d :: d in claims && d.path == p
    requires forall p :: p in t.declared ==> Declared(p, t.declared[p].0, t.declared[p].1) in claims
    ensures Tallied(t, claims)
  {
  }

  lemma ClaimDomain(t: Tally, claims: iset<Declared>, d: Declared)
    requires Tallied(t, claims) && d.path !in AGGREGATED
    ensures var next, all := Declare(t, d).declared, claims + iset{d};
            && (forall p :: p in next <==> exists e :: e in all && e.path == p)
            && (forall p :: p in next ==> Declared(p, next[p].0, next[p].1) in all)
  {
  }

  lemma ClaimConflicts(t: Tally, claims: iset<Declared>, d: Declared)
    requires Tallied(t, claims) && d.path !in AGGREGATED
    ensures var next, all := Declare(t, d), claims + iset{d};
            && (next.conflicts == [] <==> Functional(all))
            && (next.conflicts == [] ==> Describes(next.declared, all))
  {
    hide Describes, Functional;
    FunctionalWith(claims, d);
    if t.conflicts == [] {
      ClaimAgrees(t.declared, claims, d);
      if !Clash(t.declared, d) {
        DescribesWith(t.declared, claims, d);
      }
    }
  }

  lemma FunctionalWith(claims: iset<Declared>, d: Declared)
    ensures Functional(claims + iset{d}) <==>
              Functional(claims) && forall e :: e in claims && e.path == d.path ==> e == d
  {
  }

  lemma ClaimAgrees(declared: map<string, Value>, claims: iset<Declared>, d: Declared)
    requires Describes(declared, claims)
    ensures Clash(declared, d) <==> exists e :: e in claims && e.path == d.path && e != d
  {
    forall e | e in claims && e.path == d.path ensures d.path in declared && declared[d.path] == ValueOf(e) {
      assert Declared(d.path, ValueOf(e).0, ValueOf(e).1) == e;
    }
    if d.path in declared {
      assert Declared(d.path, declared[d.path].0, declared[d.path].1) in claims;
    }
  }

  lemma DescribesWith(declared: map<string, Value>, claims: iset<Declared>, d: Declared)
    requires Describes(declared, claims) && !Clash(declared, d)
    ensures Describes(declared[d.path := ValueOf(d)], claims + iset{d})
  {
  }

  lemma {:induction false} DeclareAllTallies(t: Tally, claims: iset<Declared>, managed: seq<Declared>)
    requires Tallied(t, claims)
    ensures Tallied(DeclareAll(t, managed), claims + Outside(managed))
  {
    hide Tallied, Declare;
    if managed == [] {
      assert claims + Outside(managed) == claims;
    } else {
      var init, last := managed[..|managed| - 1], managed[|managed| - 1];
      DeclareAllTallies(t, claims, init);
      DeclareTallies(DeclareAll(t, init), claims + Outside(init), last);
      assert managed == init + [last];
      assert claims + Outside(init) + Outside([last]) == claims + Outside(managed);
    }
  }

  ghost function DeclaredSet(manifests: seq<Manifest>): iset<Declared> {
    iset d | IsDeclared(manifests, d)
  }

  lemma {:induction false} TallyIs(manifests: seq<Manifest>)
    ensures Tallied(TallyAll(manifests), DeclaredSet(manifests))
  {
    hide Tallied, DeclareAll;
    if manifests == [] {
      NothingTallied();
      assert DeclaredSet(manifests) == iset{};
    } else {
      var init, last := manifests[..|manifests| - 1], manifests[|manifests| - 1];
      TallyIs(init);
      DeclareAllTallies(TallyAll(init), DeclaredSet(init), last.managed);
      DeclaredSetNext(manifests);
    }
  }

  lemma NothingTallied()
    ensures Tallied(NOTHING, iset{})
  {
  }

  lemma DeclaredSetNext(manifests: seq<Manifest>)
    requires manifests != []
    ensures DeclaredSet(manifests[..|manifests| - 1]) + Outside(manifests[|manifests| - 1].managed) ==
              DeclaredSet(manifests)
  {
  }

  /** An inventory is accepted exactly when it matches the batches. */
  lemma AcceptedIff(h: Hasher, manifests: seq<Manifest>, inventory: Inventory)
    ensures Accepted(Validate(h, manifests, inventory)) <==> Matches(h, manifests, inventory)
  {
    hide TallyAll, Listing, IsSubmitted, IsDeclared, HashesMatch, IsComplete, ReportsOf, ManifestIsRecorded, SortFiles;
    HashesAreRecorded(h, inventory);
    var claims, listing := DeclaredSet(manifests), Listing(inventory.files);
    TallyIs(manifests);
    ReportsAreReports(Profiles(manifests));
    forall d ensures IsSubmitted(inventory.files, d) <==> d.path in listing && listing[d.path] == ValueOf(d) {
      ListingIs(inventory.files, d);
    }
    DeclaredOutside(manifests);
    ListingHasNoManifest(inventory.files);
    if ReportsOf(Profiles(manifests)).Some? {
      CompleteIff(TallyAll(manifests), claims, ReportsOf(Profiles(manifests)).value, listing);
      MatchesIff(manifests, inventory, ReportsOf(Profiles(manifests)).value);
    }
  }

  lemma ReportsAreReports(profiles: set<string>)
    ensures ReportsOf(profiles).Some? ==> ReportsOf(profiles).value <= AGGREGATED - {MANIFEST}
  {
  }

  lemma DeclaredOutside(manifests: seq<Manifest>)
    ensures forall d :: d in DeclaredSet(manifests) ==> d.path !in AGGREGATED
  {
  }

  lemma {:induction false} ListingHasNoManifest(files: seq<Declared>)
    ensures MANIFEST !in Listing(files)
  {
    if files != [] {
      ListingHasNoManifest(files[..|files| - 1]);
    }
  }

  /** The comparison of two listings, as sets of files. */
  ghost predicate SameOutside(listing: map<string, Value>, claims: iset<Declared>) {
    forall d: Declared :: d.path !in AGGREGATED ==>
      (d.path in listing && listing[d.path] == ValueOf(d) <==> d in claims)
  }

  lemma CompleteIff(t: Tally, claims: iset<Declared>, reports: set<string>, listing: map<string, Value>)
    requires Tallied(t, claims) && reports <= AGGREGATED - {MANIFEST} && MANIFEST !in listing
    requires forall d :: d in claims ==> d.path !in AGGREGATED
    ensures t.conflicts == [] && IsComplete(t.declared, reports, listing) <==>
            SameOutside(listing, claims) && reports == listing.Keys * AGGREGATED
  {
    if t.conflicts == [] && IsComplete(t.declared, reports, listing) {
      CompleteIsSame(t, claims, reports, listing);
    }
    if SameOutside(listing, claims) && reports == listing.Keys * AGGREGATED {
      SameIsComplete(t, claims, reports, listing);
    }
  }

  lemma CompleteIsSame(t: Tally, claims: iset<Declared>, reports: set<string>, listing: map<string, Value>)
    requires Tallied(t, claims) && reports <= AGGREGATED - {MANIFEST} && MANIFEST !in listing
    requires forall d :: d in claims ==> d.path !in AGGREGATED
    requires t.conflicts == [] && IsComplete(t.declared, reports, listing)
    ensures SameOutside(listing, claims) && reports == listing.Keys * AGGREGATED
  {
    hide Functional;
    forall d: Declared | d.path !in AGGREGATED
      ensures d.path in listing && listing[d.path] == ValueOf(d) <==> d in claims
    {
      assert Declared(d.path, ValueOf(d).0, ValueOf(d).1) == d;
      assert d.path in t.declared && t.declared[d.path] == ValueOf(d) <==> d in claims;
    }
    forall p | p in listing.Keys * AGGREGATED ensures p in reports {
      assert p !in t.declared;
    }
  }

  lemma SameIsComplete(t: Tally, claims: iset<Declared>, reports: set<string>, listing: map<string, Value>)
    requires Tallied(t, claims) && reports <= AGGREGATED - {MANIFEST} && MANIFEST !in listing
    requires forall d :: d in claims ==> d.path !in AGGREGATED
    requires SameOutside(listing, claims) && reports == listing.Keys * AGGREGATED
    ensures t.conflicts == [] && IsComplete(t.declared, reports, listing)
  {
    hide Describes;
    assert Functional(claims) by {
      forall a, b | a in claims && b in claims && a.path == b.path ensures a == b {
        assert listing[a.path] == ValueOf(a) && listing[b.path] == ValueOf(b);
      }
    }
    forall p | p in t.declared ensures p in listing && listing[p] == t.declared[p] {
      var d := Declared(p, t.declared[p].0, t.declared[p].1);
      assert d in claims;
      assert listing[p] == ValueOf(d);
    }
    forall p | p in listing.Keys ensures p in t.declared.Keys + reports {
      if p !in AGGREGATED {
        var d := Declared(p, listing[p].0, listing[p].1);
        assert listing[p] == ValueOf(d);
        assert d in claims;
      }
    }
  }

  lemma MatchesIff(manifests: seq<Manifest>, inventory: Inventory, reports: set<string>)
    requires reports <= AGGREGATED - {MANIFEST} && MANIFEST !in Listing(inventory.files)
    requires forall d :: IsSubmitted(inventory.files, d) <==>
               d.path in Listing(inventory.files) && Listing(inventory.files)[d.path] == ValueOf(d)
    ensures SameOutside(Listing(inventory.files), DeclaredSet(manifests)) <==>
            forall d: Declared :: d.path !in AGGREGATED ==>
              (IsSubmitted(inventory.files, d) <==> IsDeclared(manifests, d))
    ensures reports == Listing(inventory.files).Keys * AGGREGATED <==>
            forall p :: p in AGGREGATED - {MANIFEST} ==>
              (p in reports <==> exists d: Declared :: d.path == p && IsSubmitted(inventory.files, d))
  {
    hide Listing, IsSubmitted, IsDeclared;
    var listing := Listing(inventory.files);
    forall p ensures p in listing <==> exists d: Declared :: d.path == p && IsSubmitted(inventory.files, d) {
      if p in listing {
        assert IsSubmitted(inventory.files, Declared(p, listing[p].0, listing[p].1));
      }
    }
    assert forall d :: d in DeclaredSet(manifests) <==> IsDeclared(manifests, d);
    assert reports == listing.Keys * AGGREGATED <==>
           forall p :: p in AGGREGATED - {MANIFEST} ==> (p in reports <==> p in listing);
  }

  // ----- The service ---------------------------------------------------------------------

  /** The inventory check of a validation request; the comparison runs over all batches. */
  method ValidateInventory(h: Hasher, manifests: seq<Manifest>, inventory: Inventory) returns (verdict: Verdict)
    ensures verdict == Validate(h, manifests, inventory)
    ensures Accepted(verdict) <==> Matches(h, manifests, inventory)
  {
    hide AGGREGATED, Declare, Listing, HashesMatch, ReportsOf, Matches, IsComplete;
    var tally := NOTHING;
    for i := 0 to |manifests|
      invariant tally == TallyAll(manifests[..i])
    {
      var managed := manifests[i].managed;
      for k := 0 to |managed|
        invariant tally == DeclareAll(TallyAll(manifests[..i]), managed[..k])
      {
        assert managed[..k + 1][..k] == managed[..k];
        tally := Declare(tally, managed[k]);
      }
      assert managed[..|managed|] == managed;
      assert manifests[..i + 1][..i] == manifests[..i];
    }
    assert manifests[..|manifests|] == manifests;
    var listing := map[];
    ListingStart();
    for i := 0 to |inventory.files|
      invariant listing == Listing(inventory.files[..i])
    {
      ListingNext(inventory.files, i);
      if inventory.files[i].path != MANIFEST {
        listing := listing[inventory.files[i].path := ValueOf(inventory.files[i])];
      }
    }
    assert inventory.files[..|inventory.files|] == inventory.files;
    var reports := ReportsOf(Profiles(manifests));
    verdict := Verdict(tally.conflicts, reports.Some?,
                       IsComplete(tally.declared, if reports.Some? then reports.value else {}, listing)
                       && HashesMatch(h, inventory));
    AcceptedIff(h, manifests, inventory);
  }

  lemma ListingStart()
    ensures Listing([]) == map[]
  {
  }

  lemma ListingNext(files: seq<Declared>, i: nat)
    requires i < |files|
    ensures Listing(files[..i + 1]) == if files[i].path == MANIFEST then Listing(files[..i])
                                       else Listing(files[..i])[files[i].path := ValueOf(files[i])]
  {
    assert files[..i + 1][..i] == files[..i];
  }
}
