/** What holds of the context index over whole runs: owner decisions, one active row per identity,
    repeated synchronisations, complete scopes and counts. */
module ContextIndexLaws {
  import opened Text
  import opened Declarations
  import opened ManagedHeader
  import opened ContextIndex

  // ----- One active row per identity -----------------------------------------------------

  predicate OneActive(rows: Table) {
    forall i, j :: 0 <= i < j < |rows| && Active(rows, i) && Active(rows, j) ==> rows[i].id != rows[j].id
  }

  lemma FirstIsFound(rows: Table, id: Identity, i: nat)
    requires Active(rows, i) && rows[i].id == id
    requires forall j :: 0 <= j < i && rows[j].id == id ==> rows[j].deleted
    ensures FindActive(rows, id) == Some(i)
  {
    hide FindActive;
  }

  lemma UpsertKeepsOneActive(rows: Table, e: Entry)
    requires OneActive(rows)
    ensures OneActive(Upsert(rows, e).rows)
  {
    hide FindActive;
    var after := Upsert(rows, e).rows;
    assert forall i :: 0 <= i < |rows| ==> Active(after, i) == Active(rows, i) && after[i].id == rows[i].id;
  }

  lemma {:induction false} UpsertsKeepOneActive(rows: Table, entries: seq<Entry>, n: nat)
    requires n <= |entries| && OneActive(rows)
    ensures OneActive(UpsertFirst(rows, entries, n).rows)
  {
    hide OneActive, Upsert;
    if n > 0 {
      UpsertsKeepOneActive(rows, entries, n - 1);
      UpsertKeepsOneActive(UpsertFirst(rows, entries, n - 1).rows, entries[n - 1]);
    }
  }

  lemma DeactivateKeepsOneActive(rows: Table, scope: Scope, entries: seq<Entry>)
    requires OneActive(rows)
    ensures OneActive(Deactivate(rows, scope, entries))
  {
    hide Missing;
    var after := Deactivate(rows, scope, entries);
    assert forall i :: 0 <= i < |rows| ==> after[i].id == rows[i].id && (Active(after, i) ==> Active(rows, i));
  }

  lemma SyncKeepsOneActive(rows: Table, r: Request, profile: Profile, approved: bool)
    requires OneActive(rows)
    ensures OneActive(Sync(rows, r, profile, approved).0)
  {
    hide OneActive, UpsertFirst, Deactivate, CountMissing, Refusal, ScopeAccepted;
    UpsertsKeepOneActive(rows, r.entries, |r.entries|);
    if r.complete.Some? {
      DeactivateKeepsOneActive(UpsertFirst(rows, r.entries, |r.entries|).rows, r.complete.value, r.entries);
    }
  }

  // ----- Runs ----------------------------------------------------------------------------

  datatype Call = Call(request: Request, profile: Profile, approved: bool)

  function RunSyncs(rows: Table, calls: seq<Call>): Table {
    if calls == [] then rows else
    var last := calls[|calls| - 1];
    Sync(RunSyncs(rows, calls[..|calls| - 1]), last.request, last.profile, last.approved).0
  }

  /** An owner's entry for the object, in an owner-mode request that was approved. */
  predicate OwnerCall(c: Call, id: Identity) {
    c.request.mode == OwnerMode && c.approved && OwnerWrites(c.request.entries, id)
  }

  predicate OwnerCalled(calls: seq<Call>, id: Identity) {
    exists k :: 0 <= k < |calls| && OwnerCall(calls[k], id)
  }

  predicate RowKept(before: Row, after: Row, calls: seq<Call>) {
    && after.id == before.id
    && (before.deleted ==> after == before)
    && (before.classification.source == Owner && after.classification != before.classification ==>
          OwnerCalled(calls, before.id))
  }

  lemma OwnerWritesNeedApproval(rows: Table, c: Call, id: Identity)
    requires ValidRequest(c.request) && AllCoherent(rows)
    requires OwnerWrites(c.request.entries, id)
    requires Sync(rows, c.request, c.profile, c.approved).0 != rows
    ensures OwnerCall(c, id)
  {
    hide Sync, IsCoherent, FoldedId;
    SyncRespectsRows(rows, c.request, c.profile, c.approved);
  }

  lemma RowKeptStep(before: Row, middle: Row, after: Row, rows: Table, calls: seq<Call>)
    requires |calls| > 0
    requires RowKept(before, middle, calls[..|calls| - 1])
    requires var c := calls[|calls| - 1];
             && ValidRequest(c.request) && AllCoherent(rows)
             && RowRespected(middle, after, c.request.entries)
             && (middle != after ==> Sync(rows, c.request, c.profile, c.approved).0 != rows)
    ensures RowKept(before, after, calls)
  {
    hide Sync, ValidRequest, AllCoherent, OwnerWrites, OwnerCall;
    var n := |calls| - 1;
    if before.classification.source == Owner && after.classification != before.classification {
      if middle.classification == before.classification {
        OwnerWritesNeedApproval(rows, calls[n], middle.id);
        assert OwnerCall(calls[n], before.id);
      } else {
        var k :| 0 <= k < n && OwnerCall(calls[..n][k], before.id);
        assert OwnerCall(calls[k], before.id);
      }
    }
  }

  /** Over every run of inventory and owner synchronisations, approved or not, refused or not: every
      row stays coherent and in place, an identity has one active row at most, a deleted row never
      changes, and an owner's classification changes only if an approved owner request names it. */
  lemma {:induction false} RunRespectsOwners(rows: Table, calls: seq<Call>)
    requires AllCoherent(rows) && OneActive(rows)
    requires forall k :: 0 <= k < |calls| ==> ValidRequest(calls[k].request)
    ensures var after := RunSyncs(rows, calls);
            && AllCoherent(after) && OneActive(after)
            && |rows| <= |after|
            && forall i :: 0 <= i < |rows| ==> RowKept(rows[i], after[i], calls)
  {
    hide Sync, ValidRequest, AllCoherent, OneActive, RowKept, RowRespected;
    if calls == [] {
      forall i | 0 <= i < |rows| ensures RowKept(rows[i], rows[i], calls) {
        RowKeptAtStart(rows[i], calls);
      }
    } else {
      var n := |calls| - 1;
      var c := calls[n];
      RunRespectsOwners(rows, calls[..n]);
      var middle := RunSyncs(rows, calls[..n]);
      SyncRespectsRows(middle, c.request, c.profile, c.approved);
      SyncKeepsOneActive(middle, c.request, c.profile, c.approved);
      var after := RunSyncs(rows, calls);
      forall i | 0 <= i < |rows| ensures RowKept(rows[i], after[i], calls) {
        RowKeptStep(rows[i], middle[i], after[i], middle, calls);
      }
    }
  }

  lemma RowKeptAtStart(row: Row, calls: seq<Call>)
    ensures RowKept(row, row, calls)
  {
  }

  // ----- A repeated synchronisation ------------------------------------------------------

  /** The entry's row already holds what the entry would write. */
  predicate Settled(rows: Table, e: Entry, kept: bool) {
    var found := FindActive(rows, e.id);
    && found.Some?
    && Merge(rows[found.value], e) == rows[found.value]
    && OwnerValuesKept(rows[found.value], e) == kept
  }

  lemma UpsertSettles(rows: Table, e: Entry)
    ensures Settled(Upsert(rows, e).rows, e, Upsert(rows, e).preserved)
  {
    hide FindActive;
    var found := FindActive(rows, e.id);
    FirstIsFound(Upsert(rows, e).rows, e.id, if found.Some? then found.value else |rows|);
  }

  lemma UpsertKeepsSettled(rows: Table, e: Entry, kept: bool, f: Entry)
    requires Settled(rows, e, kept) && e.id != f.id
    ensures Settled(Upsert(rows, f).rows, e, kept)
  {
    hide FindActive;
    FirstIsFound(Upsert(rows, f).rows, e.id, FindActive(rows, e.id).value);
  }

  lemma DeactivateKeepsSettled(rows: Table, e: Entry, kept: bool, scope: Scope, entries: seq<Entry>)
    requires Settled(rows, e, kept) && Submitted(entries, e.id)
    ensures Settled(Deactivate(rows, scope, entries), e, kept)
  {
    hide FindActive, Submitted, InScope;
    FirstIsFound(Deactivate(rows, scope, entries), e.id, FindActive(rows, e.id).value);
  }

  lemma SettledIsUnchanged(rows: Table, e: Entry, kept: bool)
    requires Settled(rows, e, kept)
    ensures Upsert(rows, e) == Upserted(rows, Unchanged, kept)
  {
    hide FindActive;
    var i := FindActive(rows, e.id).value;
    assert rows[i := rows[i]] == rows;
  }

  predicate DistinctIds(entries: seq<Entry>) {
    forall j, k :: 0 <= j < k < |entries| ==> entries[j].id != entries[k].id
  }

  /** Whether the k-th upsert of the pass left the owner's values in place. */
  function Preserved(rows: Table, entries: seq<Entry>, k: nat): bool
    requires k < |entries|
  {
    Upsert(UpsertFirst(rows, entries, k).rows, entries[k]).preserved
  }

  lemma {:induction false} UpsertsSettle(rows: Table, entries: seq<Entry>, n: nat, k: nat)
    requires DistinctIds(entries) && k < n <= |entries|
    ensures Settled(UpsertFirst(rows, entries, n).rows, entries[k], Preserved(rows, entries, k))
  {
    hide Settled, Upsert;
    if k == n - 1 {
      UpsertSettles(UpsertFirst(rows, entries, k).rows, entries[k]);
    } else {
      UpsertsSettle(rows, entries, n - 1, k);
      UpsertKeepsSettled(UpsertFirst(rows, entries, n - 1).rows, entries[k], Preserved(rows, entries, k),
          entries[n - 1]);
    }
  }

  lemma {:induction false} SettledPass(rows: Table, settled: Table, entries: seq<Entry>, n: nat)
    requires n <= |entries|
    requires forall k :: 0 <= k < |entries| ==> Settled(settled, entries[k], Preserved(rows, entries, k))
    ensures UpsertFirst(settled, entries, n)
         == Synced(settled, Counts(0, 0, n, UpsertFirst(rows, entries, n).counts.preserved, 0))
  {
    hide Settled, Upsert, UpsertFirst;
    if n == 0 {
      UpsertsStart(rows, entries);
      UpsertsStart(settled, entries);
    } else {
      SettledPass(rows, settled, entries, n - 1);
      SettledIsUnchanged(settled, entries[n - 1], Preserved(rows, entries, n - 1));
      UpsertsNext(rows, entries, n - 1);
      UpsertsNext(settled, entries, n - 1);
    }
  }

  lemma {:induction false} NothingMissingAgain(rows: Table, scope: Scope, entries: seq<Entry>)
    ensures var after := Deactivate(rows, scope, entries);
            Deactivate(after, scope, entries) == after && CountMissing(after, scope, entries) == 0
  {
    hide Submitted, InScope;
    var after := Deactivate(rows, scope, entries);
    forall i | 0 <= i < |after| ensures !Missing(scope, entries, after[i]) {
    }
    NoneMissing(after, scope, entries);
    assert Deactivate(after, scope, entries) == after;
  }

  lemma {:induction false} NoneMissing(rows: Table, scope: Scope, entries: seq<Entry>)
    requires forall i :: 0 <= i < |rows| ==> !Missing(scope, entries, rows[i])
    ensures CountMissing(rows, scope, entries) == 0
  {
    hide Missing;
    if rows != [] {
      NoneMissing(rows[..|rows| - 1], scope, entries);
    }
  }

  lemma ValidIdsAreDistinct(r: Request)
    requires ValidRequest(r)
    ensures DistinctIds(r.entries)
  {
    hide IsCoherent, Casefold;
    forall j, k | 0 <= j < k < |r.entries| ensures r.entries[j].id != r.entries[k].id {
      assert FoldedId(r.entries[j].id) != FoldedId(r.entries[k].id);
    }
  }

  /** Sending an accepted request again changes no row and reports only `unchanged`, with the same
      number of preserved owner values. */
  lemma RepeatChangesNothing(rows: Table, r: Request, profile: Profile, approved: bool)
    requires ValidRequest(r)
    requires Sync(rows, r, profile, approved).1.Ok?
    ensures var first := Sync(rows, r, profile, approved);
            Sync(first.0, r, profile, approved)
              == (first.0, Ok(Counts(0, 0, |r.entries|, first.1.value.preserved, 0)))
  {
    hide ValidRequest, UpsertFirst, Deactivate, CountMissing, Refusal, ScopeAccepted, DistinctIds, Settled, Preserved;
    ValidIdsAreDistinct(r);
    var entries := r.entries;
    var middle := UpsertFirst(rows, entries, |entries|).rows;
    var after := Sync(rows, r, profile, approved).0;
    forall k | 0 <= k < |entries| ensures Settled(after, entries[k], Preserved(rows, entries, k)) {
      UpsertsSettle(rows, entries, |entries|, k);
      if r.complete.Some? {
        DeactivateKeepsSettled(middle, entries[k], Preserved(rows, entries, k), r.complete.value, entries);
      }
    }
    SettledPass(rows, after, entries, |entries|);
    if r.complete.Some? {
      NothingMissingAgain(middle, r.complete.value, entries);
    }
  }

  // ----- Complete scopes -----------------------------------------------------------------

  predicate WithinProfile(entries: seq<Entry>, profile: Profile) {
    forall k :: 0 <= k < |entries| ==>
      entries[k].id.schemaName in profile.allowedSchemas && entries[k].id.objectType in profile.allowedTypes
  }

  lemma {:induction false} NoneOutside(entries: seq<Entry>, profile: Profile)
    ensures Outside(entries, profile).None? <==> WithinProfile(entries, profile)
  {
    if entries != [] {
      NoneOutside(entries[1..], profile);
      assert entries == [entries[0]] + entries[1..];
      assert WithinProfile(entries, profile) ==>
          forall k :: 0 <= k < |entries[1..]| ==> entries[1..][k] == entries[k + 1];
    }
  }

  predicate TouchesOnly(before: Table, after: Table, entries: seq<Entry>) {
    && |before| <= |after|
    && (forall i :: 0 <= i < |before| && !Submitted(entries, before[i].id) ==> after[i] == before[i])
    && (forall i :: 0 <= i < |before| ==> after[i].id == before[i].id && after[i].deleted == before[i].deleted)
    && (forall i :: |before| <= i < |after| ==> Submitted(entries, after[i].id))
  }

  lemma UpsertTouches(rows: Table, entries: seq<Entry>, k: nat)
    requires k < |entries|
    ensures TouchesOnly(rows, Upsert(rows, entries[k]).rows, entries)
  {
    hide FindActive, Submitted;
    SubmittedAt(entries, k);
  }

  lemma TouchesTwice(a: Table, b: Table, c: Table, entries: seq<Entry>)
    requires TouchesOnly(a, b, entries) && TouchesOnly(b, c, entries)
    ensures TouchesOnly(a, c, entries)
  {
    hide Submitted;
    forall i | |a| <= i < |c| ensures Submitted(entries, c[i].id) {
      assert i < |b| ==> c[i].id == b[i].id;
    }
  }

  lemma {:induction false} UpsertsTouchOnlySubmitted(rows: Table, entries: seq<Entry>, n: nat)
    requires n <= |entries|
    ensures TouchesOnly(rows, UpsertFirst(rows, entries, n).rows, entries)
  {
    hide Upsert, TouchesOnly;
    if n == 0 {
      TouchesNothing(rows, entries);
    } else {
      UpsertsTouchOnlySubmitted(rows, entries, n - 1);
      UpsertTouches(UpsertFirst(rows, entries, n - 1).rows, entries, n - 1);
      TouchesTwice(rows, UpsertFirst(rows, entries, n - 1).rows, UpsertFirst(rows, entries, n).rows, entries);
    }
  }

  lemma TouchesNothing(rows: Table, entries: seq<Entry>)
    ensures TouchesOnly(rows, rows, entries)
  {
  }

  lemma SubmittedAt(entries: seq<Entry>, k: nat)
    requires k < |entries|
    ensures Submitted(entries, entries[k].id)
  {
  }

  /** After an accepted complete-scope synchronisation the active identities of the scope are exactly
      those submitted; rows outside the scope are as they were. */
  lemma CompleteScopeIsExact(rows: Table, r: Request, profile: Profile, approved: bool)
    requires ValidRequest(r) && r.complete.Some?
    requires Sync(rows, r, profile, approved).1.Ok?
    ensures var after := Sync(rows, r, profile, approved).0;
            var scope := r.complete.value;
            && (forall id :: InScope(scope, id) ==> (HasActive(after, id) <==> Submitted(r.entries, id)))
            && |rows| <= |after|
            && (forall i :: 0 <= i < |rows| && !InScope(scope, rows[i].id) ==> after[i] == rows[i])
            && (forall i :: |rows| <= i < |after| ==> InScope(scope, after[i].id))
  {
    hide ValidRequest, UpsertFirst, Deactivate, CountMissing, Submitted, HasActive;
    var entries := r.entries;
    var scope := r.complete.value;
    var middle := UpsertFirst(rows, entries, |entries|).rows;
    ValidIdsAreDistinct(r);
    NoneOutside(entries, profile);
    UpsertsTouchOnlySubmitted(rows, entries, |entries|);
    SubmittedInScope(entries, scope, profile);
    DeactivateUnfold(middle, scope, entries);
    forall id | InScope(scope, id)
      ensures HasActive(Deactivate(middle, scope, entries), id) <==> Submitted(entries, id)
    {
      ActiveIffSubmitted(rows, entries, scope, id);
    }
  }

  lemma DeactivateUnfold(rows: Table, scope: Scope, entries: seq<Entry>)
    ensures var after := Deactivate(rows, scope, entries);
            && |after| == |rows|
            && forall i :: 0 <= i < |rows| ==>
                 && after[i].id == rows[i].id
                 && (!InScope(scope, rows[i].id) ==> after[i] == rows[i])
                 && (InScope(scope, rows[i].id) && !after[i].deleted ==> Submitted(entries, rows[i].id))
  {
    hide InScope, Submitted;
  }

  lemma SubmittedInScope(entries: seq<Entry>, scope: Scope, profile: Profile)
    requires WithinProfile(entries, profile) && ScopeAccepted(scope, profile)
    ensures forall id :: Submitted(entries, id) ==> InScope(scope, id)
  {
  }

  lemma ActiveIffSubmitted(rows: Table, entries: seq<Entry>, scope: Scope, id: Identity)
    requires DistinctIds(entries) && InScope(scope, id)
    ensures HasActive(Deactivate(UpsertFirst(rows, entries, |entries|).rows, scope, entries), id)
       <==> Submitted(entries, id)
  {
    hide UpsertFirst, Deactivate, FindActive, InScope, DistinctIds, Preserved;
    var middle := UpsertFirst(rows, entries, |entries|).rows;
    DeactivateUnfold(middle, scope, entries);
    if Submitted(entries, id) {
      var k :| 0 <= k < |entries| && entries[k].id == id;
      UpsertsSettle(rows, entries, |entries|, k);
      DeactivateKeepsSettled(middle, entries[k], Preserved(rows, entries, k), scope, entries);
      assert Active(Deactivate(middle, scope, entries), FindActive(Deactivate(middle, scope, entries), id).value);
    }
  }

  // ----- Counts --------------------------------------------------------------------------

  function ActiveCount(rows: Table): nat {
    if rows == [] then 0 else ActiveCount(rows[..|rows| - 1]) + (if rows[|rows| - 1].deleted then 0 else 1)
  }

  lemma {:induction false} SameFlagsSameCount(a: Table, b: Table)
    requires |a| == |b| && forall i :: 0 <= i < |a| ==> a[i].deleted == b[i].deleted
    ensures ActiveCount(a) == ActiveCount(b)
  {
    if a != [] {
      SameFlagsSameCount(a[..|a| - 1], b[..|b| - 1]);
    }
  }

  lemma UpsertCounts(rows: Table, e: Entry)
    ensures ActiveCount(Upsert(rows, e).rows)
         == ActiveCount(rows) + (if Upsert(rows, e).action == Insert then 1 else 0)
  {
    hide FindActive;
    var after := Upsert(rows, e).rows;
    if FindActive(rows, e.id).None? {
      assert after[..|after| - 1] == rows;
    } else {
      SameFlagsSameCount(rows, after);
    }
  }

  lemma {:induction false} UpsertsCount(rows: Table, entries: seq<Entry>, n: nat)
    requires n <= |entries|
    ensures var synced := UpsertFirst(rows, entries, n);
            && ActiveCount(synced.rows) == ActiveCount(rows) + synced.counts.inserted
            && synced.counts.inserted + synced.counts.updated + synced.counts.same == n
            && synced.counts.deactivated == 0
  {
    hide Upsert, ActiveCount;
    if n > 0 {
      UpsertsCount(rows, entries, n - 1);
      UpsertCounts(UpsertFirst(rows, entries, n - 1).rows, entries[n - 1]);
    }
  }

  lemma {:induction false} DeactivateCounts(rows: Table, scope: Scope, entries: seq<Entry>)
    ensures ActiveCount(Deactivate(rows, scope, entries)) + CountMissing(rows, scope, entries) == ActiveCount(rows)
  {
    hide Submitted, InScope;
    if rows != [] {
      var n := |rows| - 1;
      DeactivateCounts(rows[..n], scope, entries);
      assert Deactivate(rows, scope, entries)[..n] == Deactivate(rows[..n], scope, entries);
    }
  }

  /** Every accepted synchronisation accounts for its entries, and the number of active rows moves by
      exactly what it reports. */
  lemma CountsConserve(rows: Table, r: Request, profile: Profile, approved: bool)
    requires Sync(rows, r, profile, approved).1.Ok?
    ensures var synced := Sync(rows, r, profile, approved);
            var counts := synced.1.value;
            && counts.inserted + counts.updated + counts.same == |r.entries|
            && ActiveCount(synced.0) + counts.deactivated == ActiveCount(rows) + counts.inserted
  {
    hide UpsertFirst, Deactivate, CountMissing, ActiveCount, Refusal, ScopeAccepted;
    UpsertsCount(rows, r.entries, |r.entries|);
    if r.complete.Some? {
      DeactivateCounts(UpsertFirst(rows, r.entries, |r.entries|).rows, r.complete.value, r.entries);
    }
  }

  // ----- When a synchronisation is accepted ----------------------------------------------

  predicate MayDeactivate(r: Request, profile: Profile) {
    r.complete.Some? ==>
      && r.complete.value.schemas == profile.allowedSchemas != {}
      && r.complete.value.types == profile.allowedTypes != {}
      && !profile.hasExclusions
  }

  /** A synchronisation is accepted exactly on SQL Server, with the write scope, for objects of the profile
      alone, approved if it is an owner's, and with a deactivation only over the profile's whole boundary. */
  lemma AcceptedExactly(rows: Table, r: Request, profile: Profile, approved: bool)
    ensures Sync(rows, r, profile, approved).1.Ok? <==>
            && profile.engine == SqlServer && profile.contextWrite && WithinProfile(r.entries, profile)
            && (r.mode == OwnerMode ==> approved)
            && MayDeactivate(r, profile)
    ensures var (after, result) := Sync(rows, r, profile, approved);
            result.Err? ==>
              if profile.engine != SqlServer then result.code == ENGINE_UNSUPPORTED && after == rows
              else if !profile.contextWrite then result.code == WRITE_SCOPE_REQUIRED && after == rows
              else if !WithinProfile(r.entries, profile) then
                (result.code == SCHEMA_NOT_ALLOWED || result.code == TYPE_NOT_ALLOWED) && after == rows
              else if r.mode == OwnerMode && !approved then result.code == APPROVAL_REQUIRED && after == rows
              else result.code == COMPLETE_SCOPE_REQUIRED
  {
    hide UpsertFirst, Deactivate, CountMissing, WithinProfile;
    NoneOutside(r.entries, profile);
    OutsideCodes(r.entries, profile);
  }

  lemma {:induction false} OutsideCodes(entries: seq<Entry>, profile: Profile)
    ensures Outside(entries, profile).Some? ==>
              Outside(entries, profile) == Some(SCHEMA_NOT_ALLOWED) ||
              Outside(entries, profile) == Some(TYPE_NOT_ALLOWED)
  {
    if entries != [] {
      OutsideCodes(entries[1..], profile);
    }
  }

  // ----- Preserved owner values ----------------------------------------------------------

  /** An entry that is not an owner's for an object that an owner has classified. */
  predicate MeetsOwner(rows: Table, e: Entry) {
    e.classification.source != Owner &&
    exists i :: 0 <= i < |rows| && Active(rows, i) && rows[i].id == e.id && rows[i].classification.source == Owner
  }

  function MeetingOwner(rows: Table, entries: seq<Entry>, n: nat): set<nat>
    requires n <= |entries|
  {
    set k: nat | k < n && MeetsOwner(rows, entries[k])
  }

  lemma {:induction false} UpsertPrefix(rows: Table, entries: seq<Entry>, n: nat, m: nat)
    requires n <= m <= |entries|
    ensures UpsertFirst(rows, entries[..m], n) == UpsertFirst(rows, entries, n)
  {
    hide Upsert;
    if n > 0 {
      UpsertPrefix(rows, entries, n - 1, m);
    }
  }

  lemma PreservedMeans(rows: Table, before: Table, done: seq<Entry>, e: Entry)
    requires OneActive(rows) && TouchesOnly(rows, before, done) && !Submitted(done, e.id)
    ensures Upsert(before, e).preserved <==> MeetsOwner(rows, e)
  {
    hide Submitted, FindActive;
    var found := FindActive(before, e.id);
    if found.Some? {
      var i := found.value;
      assert i < |rows|;
      assert rows[i] == before[i] && Active(rows, i);
      forall k | 0 <= k < |rows| && Active(rows, k) && rows[k].id == e.id ensures k == i {
        OnlyOneActive(rows, i, k);
      }
    } else {
      forall k | 0 <= k < |rows| && rows[k].id == e.id ensures !Active(rows, k) {
        assert before[k] == rows[k];
      }
    }
  }

  lemma OnlyOneActive(rows: Table, i: nat, k: nat)
    requires OneActive(rows) && Active(rows, i) && Active(rows, k) && rows[i].id == rows[k].id
    ensures i == k
  {
  }

  lemma NotSubmittedBefore(entries: seq<Entry>, n: nat)
    requires DistinctIds(entries) && n < |entries|
    ensures !Submitted(entries[..n], entries[n].id)
  {
  }

  lemma {:induction false} PreservedCount(rows: Table, entries: seq<Entry>, n: nat)
    requires OneActive(rows) && DistinctIds(entries) && n <= |entries|
    ensures UpsertFirst(rows, entries, n).counts.preserved == |MeetingOwner(rows, entries, n)|
  {
    hide Upsert, OneActive, DistinctIds, TouchesOnly, MeetsOwner, UpsertFirst;
    if n == 0 {
      UpsertsStart(rows, entries);
    } else {
      var k := n - 1;
      PreservedCount(rows, entries, k);
      UpsertPrefix(rows, entries, k, k);
      UpsertsTouchOnlySubmitted(rows, entries[..k], k);
      NotSubmittedBefore(entries, k);
      PreservedMeans(rows, UpsertFirst(rows, entries, k).rows, entries[..k], entries[k]);
      UpsertsNext(rows, entries, k);
      var before := MeetingOwner(rows, entries, k);
      assert MeetingOwner(rows, entries, n) == if MeetsOwner(rows, entries[k]) then before + {k} else before;
    }
  }

  /** The number of preserved owner values is that of the entries which met an owner's row. */
  lemma PreservedAreOwners(rows: Table, r: Request, profile: Profile, approved: bool)
    requires ValidRequest(r) && OneActive(rows) && Sync(rows, r, profile, approved).1.Ok?
    ensures Sync(rows, r, profile, approved).1.value.preserved == |MeetingOwner(rows, r.entries, |r.entries|)|
  {
    hide ValidRequest, OneActive, UpsertFirst, Deactivate, CountMissing, Refusal, ScopeAccepted, DistinctIds,
         MeetingOwner;
    ValidIdsAreDistinct(r);
    PreservedCount(rows, r.entries, |r.entries|);
  }
}
