/** The one-table database context index: MERGE upserts that respect owner decisions, and
    deactivation over a complete scope. */
module ContextIndex {
  import opened Text
  import opened Declarations
  import opened ManagedHeader

  /** The five classification fields. */
  datatype Classification = Classification(
    context: Option<string>,
    description: Option<string>,
    tags: seq<string>,
    status: Status,
    source: Source)

  /** The machine-derived fields. */
  datatype Technical = Technical(
    sourceFingerprint: Option<string>,
    contentHash: Option<string>,
    managedPath: Option<string>,
    headerVersion: int,
    outputFormatVersion: int,
    evidence: seq<string>)

  datatype Row = Row(id: Identity, classification: Classification, technical: Technical, deleted: bool)

  datatype Entry = Entry(id: Identity, classification: Classification, technical: Technical, active: bool)

  type Table = seq<Row>

  /** The coherence rule, the same for entries and stored rows. */
  predicate IsCoherent(c: Classification) {
    Coherent(c.status, c.source, c.context, c.tags)
  }

  // ----- The MERGE -----------------------------------------------------------------------

  /** The active row of an identity. */
  function FindActive(rows: Table, id: Identity): (r: Option<nat>)
    ensures r.Some? ==> r.value < |rows| && rows[r.value].id == id && !rows[r.value].deleted
    ensures r.Some? ==> forall i :: 0 <= i < r.value && rows[i].id == id ==> rows[i].deleted
    ensures r.None? ==> forall i :: 0 <= i < |rows| && rows[i].id == id ==> rows[i].deleted
  {
    if rows == [] then None
    else if FindActive(rows[..|rows| - 1], id).Some? then FindActive(rows[..|rows| - 1], id)
    else if rows[|rows| - 1].id == id && !rows[|rows| - 1].deleted then Some(|rows| - 1)
    else None
  }

  predicate OwnerValuesKept(row: Row, e: Entry) {
    row.classification.source == Owner && e.classification.source != Owner
  }

  /** WHEN MATCHED: an owner's classification yields only to an owner. */
  function Merge(row: Row, e: Entry): Row {
    row.(classification := if OwnerValuesKept(row, e) then row.classification else e.classification,
         technical := e.technical)
  }

  datatype Action = Insert | Update | Unchanged

  datatype Upserted = Upserted(rows: Table, action: Action, preserved: bool)

  function Upsert(rows: Table, e: Entry): Upserted {
    match FindActive(rows, e.id)
    case None => Upserted(rows + [Row(e.id, e.classification, e.technical, false)], Insert, false)
    case Some(i) =>
      var merged := Merge(rows[i], e);
      Upserted(rows[i := merged],
               if merged.classification == rows[i].classification && merged.technical == rows[i].technical
               then Unchanged else Update,
               OwnerValuesKept(rows[i], e))
  }

  // ----- Deactivation --------------------------------------------------------------------

  datatype Scope = Scope(schemas: set<string>, types: set<ObjectType>)

  predicate InScope(scope: Scope, id: Identity) {
    id.schemaName in scope.schemas && id.objectType in scope.types
  }

  predicate Submitted(entries: seq<Entry>, id: Identity) {
    exists k :: 0 <= k < |entries| && entries[k].id == id
  }

  predicate Missing(scope: Scope, entries: seq<Entry>, row: Row) {
    !row.deleted && InScope(scope, row.id) && !Submitted(entries, row.id)
  }

  function Deactivate(rows: Table, scope: Scope, entries: seq<Entry>): (r: Table)
    ensures |r| == |rows|
  {
    seq(|rows|, i requires 0 <= i < |rows| =>
      if Missing(scope, entries, rows[i]) then rows[i].(deleted := true) else rows[i])
  }

  function CountMissing(rows: Table, scope: Scope, entries: seq<Entry>): nat {
    if rows == [] then 0
    else CountMissing(rows[..|rows| - 1], scope, entries) + (if Missing(scope, entries, rows[|rows| - 1]) then 1 else 0)
  }

  // ----- Synchronisation -----------------------------------------------------------------

  datatype Mode = Inventory | OwnerMode

  datatype Request = Request(entries: seq<Entry>, mode: Mode, complete: Option<Scope>)

  datatype Profile = Profile(
    engine: Engine,
    contextWrite: bool,
    allowedSchemas: set<string>,
    allowedTypes: set<ObjectType>,
    hasExclusions: bool)

  function FoldedId(id: Identity): (ObjectType, string, string) {
    (id.objectType, Casefold(id.schemaName), Casefold(id.objectName))
  }

  /** The request's validator: what an inventory may not contain, and unique identities. */
  predicate ValidRequest(r: Request) {
    && (r.entries == [] ==> r.complete.Some?)
    && (r.mode == Inventory ==>
          && r.complete.None?
          && forall k :: 0 <= k < |r.entries| ==> r.entries[k].classification.source != Owner && r.entries[k].active)
    && (forall j, k :: 0 <= j < k < |r.entries| ==> FoldedId(r.entries[j].id) != FoldedId(r.entries[k].id))
    && (forall k :: 0 <= k < |r.entries| ==> IsCoherent(r.entries[k].classification))
  }

  datatype Counts = Counts(inserted: nat, updated: nat, same: nat, preserved: nat, deactivated: nat)

  const ZERO := Counts(0, 0, 0, 0, 0)

  function Counted(c: Counts, u: Upserted): Counts {
    c.(inserted := c.inserted + (if u.action == Insert then 1 else 0),
       updated := c.updated + (if u.action == Update then 1 else 0),
       same := c.same + (if u.action == Unchanged then 1 else 0),
       preserved := c.preserved + (if u.preserved then 1 else 0))
  }

  datatype Synced = Synced(rows: Table, counts: Counts)

  function UpsertFirst(rows: Table, entries: seq<Entry>, n: nat): Synced
    requires n <= |entries|
  {
    if n == 0 then Synced(rows, ZERO) else
    var before := UpsertFirst(rows, entries, n - 1);
    var u := Upsert(before.rows, entries[n - 1]);
    Synced(u.rows, Counted(before.counts, u))
  }

  const ENGINE_UNSUPPORTED := "METADATA_CONTEXT_ENGINE_UNSUPPORTED"
  const WRITE_SCOPE_REQUIRED := "METADATA_CONTEXT_WRITE_SCOPE_REQUIRED"
  const SCHEMA_NOT_ALLOWED := "SCHEMA_NOT_ALLOWED"
  const TYPE_NOT_ALLOWED := "OBJECT_TYPE_NOT_ALLOWED"
  const APPROVAL_REQUIRED := "APPROVAL_REQUIRED"
  const COMPLETE_SCOPE_REQUIRED := "METADATA_CONTEXT_COMPLETE_SCOPE_REQUIRED"

  /** The first entry outside the profile decides the error. */
  function Outside(entries: seq<Entry>, profile: Profile): Option<string> {
    if entries == [] then None
    else if entries[0].id.schemaName !in profile.allowedSchemas then Some(SCHEMA_NOT_ALLOWED)
    else if entries[0].id.objectType !in profile.allowedTypes then Some(TYPE_NOT_ALLOWED)
    else Outside(entries[1..], profile)
  }

  function Refusal(r: Request, profile: Profile, approved: bool): Option<string> {
    if profile.engine != SqlServer then Some(ENGINE_UNSUPPORTED)
    else if !profile.contextWrite then Some(WRITE_SCOPE_REQUIRED)
    else if Outside(r.entries, profile).Some? then Outside(r.entries, profile)
    else if r.mode == OwnerMode && !approved then Some(APPROVAL_REQUIRED)
    else None
  }

  /** The adapter takes a deactivation only over the profile's whole boundary. */
  predicate ScopeAccepted(scope: Scope, profile: Profile) {
    && scope.schemas != {} && scope.types != {}
    && scope.schemas == profile.allowedSchemas && scope.types == profile.allowedTypes
    && !profile.hasExclusions
  }

  /** A synchronisation; a refused deactivation comes after the upserts and does not undo them. */
  function Sync(rows: Table, r: Request, profile: Profile, approved: bool): (Table, Result<Counts>) {
    if Refusal(r, profile, approved).Some? then (rows, Err(Refusal(r, profile, approved).value))
    else
      var synced := UpsertFirst(rows, r.entries, |r.entries|);
      match r.complete
      case None => (synced.rows, Ok(synced.counts))
      case Some(scope) =>
        if !ScopeAccepted(scope, profile) then (synced.rows, Err(COMPLETE_SCOPE_REQUIRED))
        else (Deactivate(synced.rows, scope, r.entries),
              Ok(synced.counts.(deactivated := CountMissing(synced.rows, scope, r.entries))))
  }

  // ----- What the two statements mean for the rows ---------------------------------------

  predicate Active(rows: Table, i: nat) {
    i < |rows| && !rows[i].deleted
  }

  predicate HasActive(rows: Table, id: Identity) {
    exists i :: 0 <= i < |rows| && Active(rows, i) && rows[i].id == id
  }

  /** Row `i` now stands for the entry: it has the entry's technical values, and the entry's classification
      unless an owner's was there and the entry is not an owner's. */
  predicate StandsFor(before: Table, after: Table, e: Entry, i: nat, preserved: bool) {
    && Active(after, i) && after[i].id == e.id && after[i].technical == e.technical
    && (preserved <==> i < |before| && OwnerValuesKept(before[i], e))
    && after[i].classification == if preserved then before[i].classification else e.classification
  }

  /** Only row `i` differs, and it was active before or is new. */
  predicate OnlyRow(before: Table, after: Table, e: Entry, i: nat) {
    && (forall j :: 0 <= j < |before| && j != i ==> j < |after| && after[j] == before[j])
    && (if HasActive(before, e.id) then |after| == |before| && Active(before, i) && before[i].id == e.id
        else i == |before| && |after| == |before| + 1)
  }

  /** One active row of the identity stands for the entry and no other row changes; a row is inserted
      exactly when none was active, and `unchanged` is reported exactly when nothing changes. */
  ghost predicate Upserts(before: Table, after: Table, e: Entry, action: Action, preserved: bool) {
    && (exists i :: StandsFor(before, after, e, i, preserved) && OnlyRow(before, after, e, i))
    && (action == Insert <==> !HasActive(before, e.id))
    && (action == Unchanged <==> after == before)
  }

  lemma UpsertMeans(rows: Table, e: Entry)
    ensures Upserts(rows, Upsert(rows, e).rows, e, Upsert(rows, e).action, Upsert(rows, e).preserved)
  {
    hide FindActive;
    var found := FindActive(rows, e.id);
    var i := if found.Some? then found.value else |rows|;
    assert found.Some? ==> Active(rows, i) && rows[i].id == e.id;
    var u := Upsert(rows, e);
    assert StandsFor(rows, u.rows, e, i, u.preserved) && OnlyRow(rows, u.rows, e, i);
  }

  /** The places where two tables of one length differ. */
  function Changed(before: Table, after: Table): set<nat>
    requires |after| == |before|
  {
    set i: nat | i < |before| && after[i] != before[i]
  }

  /** Rows of the scope that were not submitted are marked as deleted, and counted; nothing else
      changes. */
  predicate Deactivates(before: Table, after: Table, scope: Scope, entries: seq<Entry>, deactivated: nat) {
    && |after| == |before|
    && (forall i :: 0 <= i < |before| ==> after[i] == before[i] || after[i] == before[i].(deleted := true))
    && (forall i :: 0 <= i < |before| && after[i] != before[i] ==>
          && before[i].id.schemaName in scope.schemas && before[i].id.objectType in scope.types
          && !Submitted(entries, before[i].id))
    && (forall i :: 0 <= i < |after| && Active(after, i)
                    && after[i].id.schemaName in scope.schemas && after[i].id.objectType in scope.types ==>
          Submitted(entries, after[i].id))
    && deactivated == |Changed(before, after)|
  }

  lemma DeactivateMeans(rows: Table, scope: Scope, entries: seq<Entry>)
    ensures Deactivates(rows, Deactivate(rows, scope, entries), scope, entries, CountMissing(rows, scope, entries))
  {
    hide Submitted;
    CountIsChanged(rows, scope, entries);
  }

  lemma {:induction false} CountIsChanged(rows: Table, scope: Scope, entries: seq<Entry>)
    ensures CountMissing(rows, scope, entries) == |Changed(rows, Deactivate(rows, scope, entries))|
  {
    hide InScope, Submitted;
    if rows != [] {
      var n := |rows| - 1;
      CountIsChanged(rows[..n], scope, entries);
      var before := Changed(rows[..n], Deactivate(rows[..n], scope, entries));
      assert Changed(rows, Deactivate(rows, scope, entries))
          == if Missing(scope, entries, rows[n]) then before + {n} else before;
    }
  }

  // ----- The service ---------------------------------------------------------------------

  class ContextIndexService {
    var rows: Table

    constructor ()
      ensures rows == []
    {
      rows := [];
    }

    method UpsertMetadataContext(e: Entry) returns (action: Action, preserved: bool)
      modifies this
      ensures Upserts(old(rows), rows, e, action, preserved)
      ensures Upserted(rows, action, preserved) == Upsert(old(rows), e)
    {
      UpsertMeans(rows, e);
      var u := Upsert(rows, e);
      rows, action, preserved := u.rows, u.action, u.preserved;
    }

    method DeactivateMissing(scope: Scope, entries: seq<Entry>) returns (deactivated: nat)
      modifies this
      ensures Deactivates(old(rows), rows, scope, entries, deactivated)
      ensures rows == Deactivate(old(rows), scope, entries)
      ensures deactivated == CountMissing(old(rows), scope, entries)
    {
      DeactivateMeans(rows, scope, entries);
      deactivated := CountMissing(rows, scope, entries);
      rows := Deactivate(rows, scope, entries);
    }

    method SyncRequest(r: Request, profile: Profile, approved: bool) returns (result: Result<Counts>)
      modifies this
      ensures (rows, result) == Sync(old(rows), r, profile, approved)
    {
      hide Upsert, Deactivate, CountMissing, Upserts, Deactivates;
      var refusal := Refusal(r, profile, approved);
      if refusal.Some? {
        return Err(refusal.value);
      }
      var inserted, updated, same, kept := 0, 0, 0, 0;
      var entries := r.entries;
      UpsertsStart(rows, entries);
      for i := 0 to |entries|
        invariant UpsertFirst(old(rows), entries, i) == Synced(rows, Counts(inserted, updated, same, kept, 0))
      {
        UpsertsNext(old(rows), entries, i);
        var action, preserved := UpsertMetadataContext(entries[i]);
        inserted := inserted + (if action == Insert then 1 else 0);
        updated := updated + (if action == Update then 1 else 0);
        same := same + (if action == Unchanged then 1 else 0);
        kept := kept + (if preserved then 1 else 0);
      }
      var deactivated := 0;
      if r.complete.Some? {
        if !ScopeAccepted(r.complete.value, profile) {
          return Err(COMPLETE_SCOPE_REQUIRED);
        }
        deactivated := DeactivateMissing(r.complete.value, entries);
      }
      return Ok(Counts(inserted, updated, same, kept, deactivated));
    }
  }

  lemma UpsertsStart(rows: Table, entries: seq<Entry>)
    ensures UpsertFirst(rows, entries, 0) == Synced(rows, ZERO)
  {
  }

  lemma UpsertsNext(rows: Table, entries: seq<Entry>, n: nat)
    requires n < |entries|
    ensures var before := UpsertFirst(rows, entries, n);
            var u := Upsert(before.rows, entries[n]);
            UpsertFirst(rows, entries, n + 1) == Synced(u.rows, Counted(before.counts, u))
  {
    hide Upsert;
  }

  // ----- What one request can change -----------------------------------------------------

  predicate OwnerWrites(entries: seq<Entry>, id: Identity) {
    exists k :: 0 <= k < |entries| && entries[k].id == id && entries[k].classification.source == Owner
  }

  /** A row keeps its place and identity; once deleted it never changes; an owner's classification
      changes only by an owner's entry for the same object. */
  predicate RowRespected(before: Row, after: Row, entries: seq<Entry>) {
    && after.id == before.id
    && (before.deleted ==> after == before)
    && (before.classification.source == Owner && after.classification != before.classification ==>
          OwnerWrites(entries, before.id))
  }

  predicate RowsRespected(before: Table, after: Table, entries: seq<Entry>) {
    && |before| <= |after|
    && forall i :: 0 <= i < |before| ==> RowRespected(before[i], after[i], entries)
  }

  predicate AllCoherent(rows: Table) {
    forall i :: 0 <= i < |rows| ==> IsCoherent(rows[i].classification)
  }

  lemma UpsertRespects(rows: Table, entries: seq<Entry>, k: nat)
    requires k < |entries|
    ensures RowsRespected(rows, Upsert(rows, entries[k]).rows, entries)
    ensures forall i :: 0 <= i < |rows| ==> Upsert(rows, entries[k]).rows[i].deleted == rows[i].deleted
  {
    hide FindActive;
  }

  lemma RespectedTwice(a: Table, b: Table, c: Table, entries: seq<Entry>)
    requires RowsRespected(a, b, entries) && RowsRespected(b, c, entries)
    ensures RowsRespected(a, c, entries)
  {
    hide OwnerWrites;
    forall i | 0 <= i < |a| ensures RowRespected(a[i], c[i], entries) {
      assert RowRespected(a[i], b[i], entries) && RowRespected(b[i], c[i], entries);
    }
  }

  lemma {:induction false} UpsertsRespectRows(rows: Table, entries: seq<Entry>, n: nat)
    requires n <= |entries|
    ensures RowsRespected(rows, UpsertFirst(rows, entries, n).rows, entries)
    ensures forall i :: 0 <= i < |rows| ==> rows[i].deleted == UpsertFirst(rows, entries, n).rows[i].deleted
  {
    hide Upsert, RowRespected;
    if n == 0 {
      RowsRespectThemselves(rows, entries);
    } else {
      UpsertsRespectRows(rows, entries, n - 1);
      UpsertRespects(UpsertFirst(rows, entries, n - 1).rows, entries, n - 1);
      RespectedTwice(rows, UpsertFirst(rows, entries, n - 1).rows, UpsertFirst(rows, entries, n).rows, entries);
    }
  }

  lemma RowsRespectThemselves(rows: Table, entries: seq<Entry>)
    ensures RowsRespected(rows, rows, entries)
  {
  }

  lemma UpsertKeepsCoherence(rows: Table, e: Entry)
    requires AllCoherent(rows) && IsCoherent(e.classification)
    ensures AllCoherent(Upsert(rows, e).rows)
  {
    hide IsCoherent, FindActive;
  }

  lemma {:induction false} UpsertsKeepCoherence(rows: Table, entries: seq<Entry>, n: nat)
    requires n <= |entries| && AllCoherent(rows)
    requires forall k :: 0 <= k < |entries| ==> IsCoherent(entries[k].classification)
    ensures AllCoherent(UpsertFirst(rows, entries, n).rows)
  {
    hide IsCoherent, AllCoherent, Upsert;
    if n > 0 {
      UpsertsKeepCoherence(rows, entries, n - 1);
      UpsertKeepsCoherence(UpsertFirst(rows, entries, n - 1).rows, entries[n - 1]);
    }
  }

  /** One synchronisation, whatever it answers: owner decisions yield only to the owner, and the
      coherence rule holds of every row. */
  lemma SyncRespectsRows(rows: Table, r: Request, profile: Profile, approved: bool)
    requires ValidRequest(r) && AllCoherent(rows)
    ensures var after := Sync(rows, r, profile, approved).0;
            && RowsRespected(rows, after, r.entries)
            && AllCoherent(after)
            && (after != rows && r.mode == OwnerMode ==> approved)
  {
    hide IsCoherent, CountMissing, Missing, UpsertFirst, FoldedId;
    UpsertsRespectRows(rows, r.entries, |r.entries|);
    UpsertsKeepCoherence(rows, r.entries, |r.entries|);
  }
}
