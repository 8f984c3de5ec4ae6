/** Catalog phase two: extract every object, checkpointing each one, so that an interrupted run
    can be taken up again. */
module CatalogPhaseTwo {
  import opened Text
  import opened Declarations

  datatype ObjectRef = ObjectRef(objectId: string, objectType: ObjectType, schemaName: string, objectName: string)

  datatype Edge = Edge(source: string, target: string, evidence: string)

  datatype DbObject = DbObject(ref: ObjectRef, definition: Option<string>, fingerprint: Option<string>,
                               foreignKeys: seq<Edge>)

  datatype Sample = Sample(columns: seq<string>, rows: seq<seq<string>>)

  /** What the database answers, with its samples already protected, and the redaction of
      definitions. All of it answers the same each time it is asked. */
  datatype Adapter = Adapter(
    extract: ObjectRef -> Result<DbObject>,
    sample: (ObjectRef, DbObject) -> Result<Sample>,
    routineDependencies: ObjectRef -> Result<seq<Edge>>,
    redact: string -> string,
    sha: string -> string)

  datatype Checkpoint =
    | Completed(extracted: DbObject, sample: Option<Sample>, dependencies: seq<Edge>)
    | FailedExtraction
    | DefinitionReused(reused: DbObject)

  type Store = map<string, Checkpoint>

  // ----- One object ----------------------------------------------------------------------

  /** The definition is redacted and the fingerprint taken from the redacted text. */
  function Cleaned(o: DbObject, adapter: Adapter): DbObject {
    match o.definition
    case None => o
    case Some(text) =>
      if text == "" then o
      else
        var cleaned := adapter.redact(text);
        o.(definition := Some(cleaned), fingerprint := Some(adapter.sha(cleaned)))
  }

  datatype Outcome =
    | NotExtracted
    | Analyzed(extracted: DbObject, sample: Option<Sample>, dependencies: seq<Edge>, sampleFailed: bool,
        dependenciesFailed: bool)

  function AnalyzeObject(ref: ObjectRef, o: DbObject, adapter: Adapter): Outcome {
    if ref.objectType == Table then
      match adapter.sample(ref, o)
      case Ok(sample) => Analyzed(o, Some(sample), o.foreignKeys, false, false)
      case Err(_) => Analyzed(o, None, o.foreignKeys, true, false)
    else
      match adapter.routineDependencies(ref)
      case Ok(edges) => Analyzed(o, None, edges, false, false)
      case Err(_) => Analyzed(o, None, [], false, true)
  }

  /** Extraction without any checkpoint. */
  function Fresh(ref: ObjectRef, adapter: Adapter): Outcome {
    match adapter.extract(ref)
    case Err(_) => NotExtracted
    case Ok(o) => AnalyzeObject(ref, Cleaned(o, adapter), adapter)
  }

  /** Extraction with what the store holds for the object. */
  function Extracted(ref: ObjectRef, store: Store, adapter: Adapter): Outcome {
    if ref.objectId !in store then Fresh(ref, adapter) else
    match store[ref.objectId]
    case Completed(o, sample, dependencies) => Analyzed(o, sample, dependencies, false, false)
    case FailedExtraction => Fresh(ref, adapter)
    case DefinitionReused(o) => AnalyzeObject(ref, Cleaned(o, adapter), adapter)
  }

  function CheckpointOf(outcome: Outcome): Checkpoint {
    match outcome
    case NotExtracted => FailedExtraction
    case Analyzed(o, sample, dependencies, _, _) => Completed(o, sample, dependencies)
  }

  // ----- The loop ------------------------------------------------------------------------

  datatype Analysis = Analysis(
    analyzed: seq<DbObject>,
    samples: map<string, Sample>,
    dependencies: seq<Edge>,
    failures: nat,
    sampleFailures: nat,
    dependencyFailures: nat)

  const NOTHING := Analysis([], map[], [], 0, 0, 0)

  function Add(a: Analysis, ref: ObjectRef, outcome: Outcome): Analysis {
    match outcome
    case NotExtracted => a.(failures := a.failures + 1)
    case Analyzed(o, sample, dependencies, sampleFailed, dependenciesFailed) =>
      Analysis(a.analyzed + [o],
               if sample.Some? then a.samples[ref.objectId := sample.value] else a.samples,
               a.dependencies + dependencies,
               a.failures,
               a.sampleFailures + (if sampleFailed then 1 else 0),
               a.dependencyFailures + (if dependenciesFailed then 1 else 0))
  }

  datatype Work = Work(analysis: Analysis, store: Store)

  /** The first `n` objects, each checkpointed as it is done. */
  function Worked(refs: seq<ObjectRef>, n: nat, store: Store, adapter: Adapter): Work
    requires n <= |refs|
  {
    if n == 0 then Work(NOTHING, store) else
    var before := Worked(refs, n - 1, store, adapter);
    var outcome := Extracted(refs[n - 1], before.store, adapter);
    Work(Add(before.analysis, refs[n - 1], outcome), before.store[refs[n - 1].objectId := CheckpointOf(outcome)])
  }

  /** One uninterrupted run from nothing, checkpoints aside. */
  function Straight(refs: seq<ObjectRef>, n: nat, adapter: Adapter): Analysis
    requires n <= |refs|
  {
    if n == 0 then NOTHING else Add(Straight(refs, n - 1, adapter), refs[n - 1], Fresh(refs[n - 1], adapter))
  }

  // ----- Resuming agrees with running straight through -----------------------------------

  /** An object id names one object. */
  predicate IdsIdentify(refs: seq<ObjectRef>) {
    forall i, j :: 0 <= i < |refs| && 0 <= j < |refs| && refs[i].objectId == refs[j].objectId ==> refs[i] == refs[j]
  }

  /** A completed checkpoint holds what extraction would give now, and so does the analysis of a
      definition carried over from an earlier catalog. */
  predicate Faithful(store: Store, ref: ObjectRef, adapter: Adapter) {
    ref.objectId in store ==>
      match store[ref.objectId]
      case FailedExtraction => true
      case DefinitionReused(o) => AnalyzeObject(ref, Cleaned(o, adapter), adapter) == Fresh(ref, adapter)
      case Completed(o, sample, dependencies) =>
        match Fresh(ref, adapter)
        case NotExtracted => false
        case Analyzed(o', sample', dependencies', _, _) => o == o' && sample == sample' && dependencies == dependencies'
  }

  predicate AllFaithful(store: Store, refs: seq<ObjectRef>, adapter: Adapter) {
    forall i :: 0 <= i < |refs| ==> Faithful(store, refs[i], adapter)
  }

  /** Equal in everything but the counts of incomplete samples and dependencies. */
  predicate SameResults(a: Analysis, b: Analysis) {
    a.analyzed == b.analyzed && a.samples == b.samples && a.dependencies == b.dependencies && a.failures == b.failures
  }

  lemma StepIsFaithful(refs: seq<ObjectRef>, k: nat, store: Store, adapter: Adapter)
    requires IdsIdentify(refs) && k < |refs| && AllFaithful(store, refs, adapter)
    ensures var outcome := Extracted(refs[k], store, adapter);
            AllFaithful(store[refs[k].objectId := CheckpointOf(outcome)], refs, adapter)
  {
  }

  /** However far a run gets, its checkpoints stay faithful, and its results are those of a
      straight run over the same objects. */
  lemma {:induction false} WorkedIsStraight(refs: seq<ObjectRef>, n: nat, store: Store, adapter: Adapter)
    requires n <= |refs| && IdsIdentify(refs) && AllFaithful(store, refs, adapter)
    ensures AllFaithful(Worked(refs, n, store, adapter).store, refs, adapter)
    ensures SameResults(Worked(refs, n, store, adapter).analysis, Straight(refs, n, adapter))
  {
    hide Fresh, AnalyzeObject, Cleaned, IdsIdentify;
    if n > 0 {
      WorkedIsStraight(refs, n - 1, store, adapter);
      var before := Worked(refs, n - 1, store, adapter);
      StepIsFaithful(refs, n - 1, before.store, adapter);
      assert Faithful(before.store, refs[n - 1], adapter);
    }
  }

  /** Every object is either analysed or counted as failed. */
  lemma {:induction false} WorkedConserves(refs: seq<ObjectRef>, n: nat, store: Store, adapter: Adapter)
    requires n <= |refs|
    ensures var a := Worked(refs, n, store, adapter).analysis; |a.analyzed| + a.failures == n
  {
    hide Extracted;
    if n > 0 {
      WorkedConserves(refs, n - 1, store, adapter);
    }
  }

  // ----- When a run ends with warnings ---------------------------------------------------

  predicate HasCompleted(store: Store, ref: ObjectRef) {
    ref.objectId in store && store[ref.objectId].Completed?
  }

  /** Reading the object now fails, or leaves out its sample or its dependencies. */
  predicate Incomplete(ref: ObjectRef, adapter: Adapter) {
    match Fresh(ref, adapter)
    case NotExtracted => true
    case Analyzed(_, _, _, sampleFailed, dependenciesFailed) => sampleFailed || dependenciesFailed
  }

  /** It is incomplete, and no checkpoint hides that. */
  predicate Troubled(ref: ObjectRef, store: Store, adapter: Adapter) {
    Incomplete(ref, adapter) && !HasCompleted(store, ref)
  }

  predicate SomeTroubled(refs: seq<ObjectRef>, n: nat, store: Store, adapter: Adapter)
    requires n <= |refs|
  {
    exists i :: 0 <= i < n && Troubled(refs[i], store, adapter)
  }

  predicate SomeIncomplete(refs: seq<ObjectRef>, n: nat, adapter: Adapter)
    requires n <= |refs|
  {
    exists i :: 0 <= i < n && Incomplete(refs[i], adapter)
  }

  predicate Warned(a: Analysis) {
    a.failures > 0 || a.sampleFailures > 0 || a.dependencyFailures > 0
  }

  lemma AddWarns(a: Analysis, ref: ObjectRef, store: Store, adapter: Adapter)
    requires Faithful(store, ref, adapter)
    ensures Warned(Add(a, ref, Extracted(ref, store, adapter))) <==> Warned(a) || Troubled(ref, store, adapter)
    ensures Warned(Add(a, ref, Fresh(ref, adapter))) <==> Warned(a) || Incomplete(ref, adapter)
  {
    hide AnalyzeObject, Cleaned;
  }

  /** The loop completes only what it visits, and forgets no completed checkpoint. */
  lemma {:induction false} WorkedCompletes(refs: seq<ObjectRef>, n: nat, store: Store, adapter: Adapter, ref: ObjectRef)
    requires n <= |refs|
    ensures HasCompleted(store, ref) ==> HasCompleted(Worked(refs, n, store, adapter).store, ref)
    ensures HasCompleted(Worked(refs, n, store, adapter).store, ref) ==>
              HasCompleted(store, ref) || exists i :: 0 <= i < n && refs[i].objectId == ref.objectId
  {
    hide Fresh, AnalyzeObject, Add;
    if n > 0 {
      WorkedCompletes(refs, n - 1, store, adapter, ref);
    }
  }

  lemma TroubledLast(refs: seq<ObjectRef>, n: nat, store: Store, adapter: Adapter)
    requires 0 < n <= |refs| && IdsIdentify(refs)
    ensures SomeTroubled(refs, n, store, adapter) <==>
            || SomeTroubled(refs, n - 1, store, adapter)
            || Troubled(refs[n - 1], Worked(refs, n - 1, store, adapter).store, adapter)
  {
    hide Incomplete, Worked;
    WorkedCompletes(refs, n - 1, store, adapter, refs[n - 1]);
    if Troubled(refs[n - 1], store, adapter) &&
       !Troubled(refs[n - 1], Worked(refs, n - 1, store, adapter).store, adapter) {
      var i :| 0 <= i < n - 1 && refs[i].objectId == refs[n - 1].objectId;
      assert refs[i] == refs[n - 1];
      assert Troubled(refs[i], store, adapter);
    }
  }

  /** A run warns exactly when some object reads incompletely now and had no completed checkpoint before
      the run. */
  lemma {:induction false} WarnedIsTroubled(refs: seq<ObjectRef>, n: nat, store: Store, adapter: Adapter)
    requires n <= |refs| && IdsIdentify(refs) && AllFaithful(store, refs, adapter)
    ensures Warned(Worked(refs, n, store, adapter).analysis) <==> SomeTroubled(refs, n, store, adapter)
  {
    hide IdsIdentify, Extracted, Fresh, Faithful, Troubled, Add, Warned, SomeTroubled;
    if n == 0 {
      NothingWarns(refs, store, adapter);
    } else {
      WarnedIsTroubled(refs, n - 1, store, adapter);
      WorkedIsStraight(refs, n - 1, store, adapter);
      var before := Worked(refs, n - 1, store, adapter);
      assert Faithful(before.store, refs[n - 1], adapter);
      AddWarns(before.analysis, refs[n - 1], before.store, adapter);
      TroubledLast(refs, n, store, adapter);
    }
  }

  lemma NothingWarns(refs: seq<ObjectRef>, store: Store, adapter: Adapter)
    ensures !Warned(NOTHING) && !SomeTroubled(refs, 0, store, adapter) && !SomeIncomplete(refs, 0, adapter)
  {
  }

  lemma {:induction false} StraightWarns(refs: seq<ObjectRef>, n: nat, adapter: Adapter)
    requires n <= |refs|
    ensures Warned(Straight(refs, n, adapter)) <==> SomeIncomplete(refs, n, adapter)
  {
    hide Fresh, Add, Warned, Incomplete;
    if n == 0 {
      NothingWarns(refs, map[], adapter);
    } else {
      StraightWarns(refs, n - 1, adapter);
      AddWarns(Straight(refs, n - 1, adapter), refs[n - 1], map[], adapter);
    }
  }

  // ----- The job over runs ---------------------------------------------------------------

  datatype Status = AwaitingSelection | Running | Ready | CompletedWithWarnings | Cancelled

  /** The stored record, snapshot, analysis summary and checkpoints of one catalog. */
  datatype Job = Job(
    status: Status,
    total: nat,
    processed: nat,
    objects: seq<DbObject>,
    samples: map<string, Sample>,
    dependencies: seq<Edge>,
    failed: nat,
    store: Store)

  /** Where a run ends: by itself, because the process dies, or because of a cancellation. In the loop
      the process dies after `done` objects, or halfway through the next, after its first write. */
  datatype Stop =
    | Never
    | CrashInLoop(done: nat, halfway: bool)
    | CrashAfterRecord
    | CrashAfterSnapshot
    | CancelAt(done: nat)

  datatype Event = Select(stop: Stop) | Recover

  function Placeholder(ref: ObjectRef): DbObject {
    DbObject(ref, None, None, [])
  }

  function RefsOf(objects: seq<DbObject>): (r: seq<ObjectRef>)
    ensures |r| == |objects|
  {
    seq(|objects|, i requires 0 <= i < |objects| => objects[i].ref)
  }

  /** A new job, with the checkpoints carried over from an earlier catalog. */
  function Created(refs: seq<ObjectRef>, carried: Store): Job {
    Job(AwaitingSelection, |refs|, 0, seq(|refs|, i requires 0 <= i < |refs| => Placeholder(refs[i])),
        map[], [], 0, carried)
  }

  /** A failed extraction and a completed checkpoint report progress before anything is stored. */
  predicate RecordFirst(ref: ObjectRef, store: Store, outcome: Outcome) {
    outcome.NotExtracted? || HasCompleted(store, ref)
  }

  predicate Selectable(status: Status) {
    status == AwaitingSelection || status == Ready
  }

  function FinalStatus(a: Analysis): Status {
    if Warned(a) then CompletedWithWarnings else Ready
  }

  function WithSnapshot(job: Job, a: Analysis): Job {
    job.(objects := a.analyzed, samples := a.samples, dependencies := a.dependencies)
  }

  function PhaseTwo(job: Job, stop: Stop, adapter: Adapter): Job {
    var refs := RefsOf(job.objects);
    var n := |refs|;
    match stop
    case CrashInLoop(done, halfway) =>
      var k := if done < n then done else n;
      var work := Worked(refs, k, job.store, adapter);
      var reached := if k > 0 then k else job.processed;
      if !halfway || k == n then job.(status := Running, processed := reached, store := work.store)
      else
        var outcome := Extracted(refs[k], work.store, adapter);
        if RecordFirst(refs[k], work.store, outcome)
        then job.(status := Running, processed := k + 1, store := work.store)
        else job.(status := Running, processed := reached,
                  store := work.store[refs[k].objectId := CheckpointOf(outcome)])
    case CancelAt(done) =>
      if done < n then
        var work := Worked(refs, done, job.store, adapter);
        WithSnapshot(job, work.analysis).(status := Cancelled, store := work.store, failed := work.analysis.failures,
                                          processed := if done > 0 then done else job.processed)
      else Finished(job, refs, adapter)
    case CrashAfterRecord =>
      var work := Worked(refs, n, job.store, adapter);
      job.(status := FinalStatus(work.analysis), processed := job.total, store := work.store)
    case CrashAfterSnapshot =>
      Finished(job, refs, adapter).(failed := job.failed)
    case Never => Finished(job, refs, adapter)
  }

  function Finished(job: Job, refs: seq<ObjectRef>, adapter: Adapter): Job {
    var work := Worked(refs, |refs|, job.store, adapter);
    WithSnapshot(job, work.analysis).(status := FinalStatus(work.analysis), processed := job.total, store := work.store,
                                      failed := work.analysis.failures)
  }

  function Step(job: Job, event: Event, adapter: Adapter): Job {
    match event
    case Select(stop) => if Selectable(job.status) then PhaseTwo(job, stop, adapter) else job
    case Recover => if job.status == Running then job.(status := AwaitingSelection) else job
  }

  function Run(job: Job, events: seq<Event>, adapter: Adapter): Job
    decreases |events|
  {
    if events == [] then job else Run(Step(job, events[0], adapter), events[1..], adapter)
  }

  /** Extraction answers about the object it was asked for. */
  ghost predicate RespectsRefs(adapter: Adapter) {
    forall ref :: adapter.extract(ref).Ok? ==> adapter.extract(ref).value.ref == ref
  }

  predicate Resumable(job: Job, refs: seq<ObjectRef>, adapter: Adapter) {
    && job.total == |refs|
    && AllFaithful(job.store, refs, adapter)
    && (Selectable(job.status) || job.status == Running ==> RefsOf(job.objects) == refs)
  }

  lemma {:induction false} StraightRefs(refs: seq<ObjectRef>, n: nat, adapter: Adapter)
    requires n <= |refs| && RespectsRefs(adapter) && Straight(refs, n, adapter).failures == 0
    ensures RefsOf(Straight(refs, n, adapter).analyzed) == refs[..n]
  {
    if n > 0 {
      StraightRefs(refs, n - 1, adapter);
      FreshRef(refs[n - 1], adapter);
      var before := Straight(refs, n - 1, adapter).analyzed;
      assert refs[..n] == refs[..n - 1] + [refs[n - 1]];
      assert |before| == n - 1;
    }
  }

  lemma FreshRef(ref: ObjectRef, adapter: Adapter)
    requires RespectsRefs(adapter) && Fresh(ref, adapter).Analyzed?
    ensures Fresh(ref, adapter).extracted.ref == ref
  {
  }

  lemma CreatedIsResumable(refs: seq<ObjectRef>, carried: Store, adapter: Adapter)
    ensures Resumable(Created(refs, carried), refs, adapter) <==> AllFaithful(carried, refs, adapter)
  {
    hide AllFaithful;
  }

  // ----- Checkpoints carried over --------------------------------------------------------

  /** What `create` copies of an earlier checkpoint: of a table only its definition. */
  function Reused(c: Checkpoint): Option<Checkpoint> {
    match c
    case FailedExtraction => None
    case Completed(o, _, _) => Some(if o.ref.objectType == Table then DefinitionReused(o) else c)
    case DefinitionReused(o) => Some(c)
  }

  /** The copies for the objects whose validators agree. */
  function Carried(previous: Store, agreeing: set<string>): Store {
    map id | id in agreeing && id in previous && Reused(previous[id]).Some? :: Reused(previous[id]).value
  }

  /** Cleaning the stored object once more changes nothing. */
  predicate IsSettled(o: DbObject, adapter: Adapter) {
    o.definition.None? || o.definition.value == "" || adapter.redact(o.definition.value) == o.definition.value
  }

  /** The checkpoint of a table whose definition is carried over, to be cleaned a second time. */
  predicate CarriesTable(previous: Store, agreeing: set<string>, ref: ObjectRef) {
    ref.objectType == Table && ref.objectId in agreeing && HasCompleted(previous, ref)
  }

  predicate AllSettled(previous: Store, agreeing: set<string>, refs: seq<ObjectRef>, adapter: Adapter) {
    forall i :: 0 <= i < |refs| && CarriesTable(previous, agreeing, refs[i]) ==>
      IsSettled(previous[refs[i].objectId].extracted, adapter)
  }

  lemma CleanedAgain(o: DbObject, adapter: Adapter)
    ensures var c := Cleaned(o, adapter); Cleaned(c, adapter) == c <==> IsSettled(c, adapter)
  {
  }

  lemma FreshIsCleaned(ref: ObjectRef, adapter: Adapter)
    requires RespectsRefs(adapter) && Fresh(ref, adapter).Analyzed?
    ensures adapter.extract(ref).Ok?
    ensures var o := Cleaned(adapter.extract(ref).value, adapter);
            Fresh(ref, adapter).extracted == o && o.ref == ref && Fresh(ref, adapter) == AnalyzeObject(ref, o, adapter)
  {
  }

  lemma AnalyzedObject(ref: ObjectRef, o: DbObject, adapter: Adapter)
    ensures AnalyzeObject(ref, o, adapter).Analyzed? && AnalyzeObject(ref, o, adapter).extracted == o
  {
  }

  lemma CarriedTable(previous: Store, agreeing: set<string>, ref: ObjectRef, adapter: Adapter)
    requires RespectsRefs(adapter) && Faithful(previous, ref, adapter) && CarriesTable(previous, agreeing, ref)
    ensures Faithful(Carried(previous, agreeing), ref, adapter) <==>
            IsSettled(previous[ref.objectId].extracted, adapter)
  {
    hide Fresh, AnalyzeObject, Cleaned, RespectsRefs, IsSettled;
    FreshIsCleaned(ref, adapter);
    var x := adapter.extract(ref).value;
    var o := previous[ref.objectId].extracted;
    assert o == Cleaned(x, adapter);
    CleanedAgain(x, adapter);
    AnalyzedObject(ref, o, adapter);
    AnalyzedObject(ref, Cleaned(o, adapter), adapter);
  }

  lemma CarriedOther(previous: Store, agreeing: set<string>, ref: ObjectRef, adapter: Adapter)
    requires RespectsRefs(adapter) && Faithful(previous, ref, adapter) && !CarriesTable(previous, agreeing, ref)
    ensures Faithful(Carried(previous, agreeing), ref, adapter)
  {
    hide Fresh, AnalyzeObject, Cleaned, RespectsRefs;
    if ref.objectId in previous && previous[ref.objectId].Completed? {
      FreshIsCleaned(ref, adapter);
    }
  }

  /** While the earlier checkpoints tell the truth, the copies do exactly when no table's stored definition
      would change by being redacted once more. */
  lemma CarriedIsFaithful(previous: Store, agreeing: set<string>, refs: seq<ObjectRef>, adapter: Adapter)
    requires RespectsRefs(adapter) && AllFaithful(previous, refs, adapter)
    ensures AllFaithful(Carried(previous, agreeing), refs, adapter) <==>
            AllSettled(previous, agreeing, refs, adapter)
  {
    hide Faithful, IsSettled, RespectsRefs, Carried;
    forall i | 0 <= i < |refs|
      ensures Faithful(Carried(previous, agreeing), refs[i], adapter) <==>
                (CarriesTable(previous, agreeing, refs[i]) ==>
                   IsSettled(previous[refs[i].objectId].extracted, adapter))
    {
      assert Faithful(previous, refs[i], adapter);
      if CarriesTable(previous, agreeing, refs[i]) {
        CarriedTable(previous, agreeing, refs[i], adapter);
      } else {
        CarriedOther(previous, agreeing, refs[i], adapter);
      }
    }
  }

  // ----- Runs ----------------------------------------------------------------------------

  lemma FinishedIsStraight(job: Job, refs: seq<ObjectRef>, adapter: Adapter)
    requires IdsIdentify(refs) && AllFaithful(job.store, refs, adapter)
    ensures var done, straight := Finished(job, refs, adapter), Straight(refs, |refs|, adapter);
            && done.objects == straight.analyzed && done.samples == straight.samples
            && done.dependencies == straight.dependencies && done.failed == straight.failures
            && |done.objects| + done.failed == |refs| && done.total == job.total
            && AllFaithful(done.store, refs, adapter)
  {
    hide Worked, Straight, AllFaithful, IdsIdentify;
    WorkedIsStraight(refs, |refs|, job.store, adapter);
    WorkedConserves(refs, |refs|, job.store, adapter);
  }

  lemma CrashStore(job: Job, stop: Stop, adapter: Adapter)
    requires stop.CrashInLoop?
    ensures var refs := RefsOf(job.objects);
            var after := PhaseTwo(job, stop, adapter);
            && after == job.(status := Running, processed := after.processed, store := after.store)
            && exists k :: 0 <= k <= |refs| && after.store == Worked(refs, k, job.store, adapter).store
  {
    hide Extracted, CheckpointOf, Add, RefsOf;
    var refs := RefsOf(job.objects);
    var k := if stop.done < |refs| then stop.done else |refs|;
    if stop.halfway && k < |refs| {
      assert PhaseTwo(job, stop, adapter).store == Worked(refs, k, job.store, adapter).store
          || PhaseTwo(job, stop, adapter).store == Worked(refs, k + 1, job.store, adapter).store;
    } else {
      assert PhaseTwo(job, stop, adapter).store == Worked(refs, k, job.store, adapter).store;
    }
  }

  lemma StepKeepsResumable(job: Job, event: Event, refs: seq<ObjectRef>, adapter: Adapter)
    requires IdsIdentify(refs) && RespectsRefs(adapter) && Resumable(job, refs, adapter)
    ensures Resumable(Step(job, event, adapter), refs, adapter)
  {
    hide PhaseTwo, Worked, AllFaithful, IdsIdentify, RespectsRefs, RefsOf;
    if event.Select? && Selectable(job.status) {
      if event.stop.CrashInLoop? {
        CrashStore(job, event.stop, adapter);
        var k :| 0 <= k <= |refs| &&
                 PhaseTwo(job, event.stop, adapter).store == Worked(refs, k, job.store, adapter).store;
        WorkedIsStraight(refs, k, job.store, adapter);
      } else {
        OtherStopsKeepResumable(job, event.stop, refs, adapter);
      }
    }
  }

  lemma OtherStopsKeepResumable(job: Job, stop: Stop, refs: seq<ObjectRef>, adapter: Adapter)
    requires IdsIdentify(refs) && RespectsRefs(adapter) && Resumable(job, refs, adapter) && Selectable(job.status)
    requires !stop.CrashInLoop?
    ensures Resumable(PhaseTwo(job, stop, adapter), refs, adapter)
  {
    hide Worked, Straight, AllFaithful, IdsIdentify, RespectsRefs, RefsOf;
    var n := |refs|;
    var k := if stop.CancelAt? && stop.done < n then stop.done else n;
    WorkedIsStraight(refs, k, job.store, adapter);
    if k == n && FinalStatus(Worked(refs, n, job.store, adapter).analysis) == Ready {
      StraightRefs(refs, n, adapter);
      assert refs[..n] == refs;
    }
  }

  lemma {:induction false} RunKeepsResumable(job: Job, events: seq<Event>, refs: seq<ObjectRef>, adapter: Adapter)
    requires IdsIdentify(refs) && RespectsRefs(adapter) && Resumable(job, refs, adapter)
    ensures Resumable(Run(job, events, adapter), refs, adapter)
    decreases |events|
  {
    hide Resumable, IdsIdentify, RespectsRefs, Step;
    if events != [] {
      StepKeepsResumable(job, events[0], refs, adapter);
      RunKeepsResumable(Step(job, events[0], adapter), events[1..], refs, adapter);
    }
  }

  /** After any run of selections that crash, recoveries and repeated selections, one selection
      that finishes gives the objects, samples and dependencies of a single uninterrupted run, in
      the same order, and analysed plus failed is the total. */
  lemma ResumingAgrees(start: Job, refs: seq<ObjectRef>, events: seq<Event>, adapter: Adapter)
    requires IdsIdentify(refs) && RespectsRefs(adapter) && Resumable(start, refs, adapter)
    requires Selectable(Run(start, events, adapter).status)
    ensures var done := Step(Run(start, events, adapter), Select(Never), adapter);
            var straight := Straight(refs, |refs|, adapter);
            && done.objects == straight.analyzed && done.samples == straight.samples
            && done.dependencies == straight.dependencies && done.failed == straight.failures
            && |done.objects| + done.failed == done.total == |refs|
  {
    hide Run, Finished, IdsIdentify, RespectsRefs, AllFaithful, Straight;
    RunKeepsResumable(start, events, refs, adapter);
    FinishedIsStraight(Run(start, events, adapter), refs, adapter);
  }

  /** Its status agrees exactly when nothing reads incompletely, or something does that no checkpoint
      standing before the last selection hides. */
  lemma ResumedStatus(start: Job, refs: seq<ObjectRef>, events: seq<Event>, adapter: Adapter)
    requires IdsIdentify(refs) && RespectsRefs(adapter) && Resumable(start, refs, adapter)
    requires Selectable(Run(start, events, adapter).status)
    ensures var job := Run(start, events, adapter);
            var done := Step(job, Select(Never), adapter);
            && (done.status == CompletedWithWarnings <==> SomeTroubled(refs, |refs|, job.store, adapter))
            && (done.status == FinalStatus(Straight(refs, |refs|, adapter)) <==>
                (SomeIncomplete(refs, |refs|, adapter) ==> SomeTroubled(refs, |refs|, job.store, adapter)))
  {
    hide Run, Worked, IdsIdentify, RespectsRefs, AllFaithful, Straight, RefsOf, Warned, Troubled, Incomplete;
    var job := Run(start, events, adapter);
    RunKeepsResumable(start, events, refs, adapter);
    WarnedIsTroubled(refs, |refs|, job.store, adapter);
    StraightWarns(refs, |refs|, adapter);
    TroubledIsIncomplete(refs, job.store, adapter);
  }

  lemma TroubledIsIncomplete(refs: seq<ObjectRef>, store: Store, adapter: Adapter)
    ensures SomeTroubled(refs, |refs|, store, adapter) ==> SomeIncomplete(refs, |refs|, adapter)
  {
    hide Incomplete, HasCompleted;
  }

  /** An interrupted job that is recovered at start-up and selected again finishes with those results. */
  lemma RecoveredFinishes(job: Job, refs: seq<ObjectRef>, adapter: Adapter)
    requires IdsIdentify(refs) && RespectsRefs(adapter) && Resumable(job, refs, adapter) && job.status == Running
    ensures var recovered := Step(job, Recover, adapter);
            var done := Step(recovered, Select(Never), adapter);
            var straight := Straight(refs, |refs|, adapter);
            && recovered.store == job.store && recovered.objects == job.objects
            && (done.status == Ready || done.status == CompletedWithWarnings)
            && done.objects == straight.analyzed && done.samples == straight.samples
            && done.dependencies == straight.dependencies && done.failed == straight.failures
  {
    hide Worked, IdsIdentify, RespectsRefs, AllFaithful, Straight, RefsOf;
    FinishedIsStraight(job.(status := AwaitingSelection), refs, adapter);
  }

  /** A crash can be resumed after exactly when it does not fall between the final record and the
      snapshot of a run with warnings. There the record already says the job is complete, so no
      later event changes the job, and its snapshot still holds what it held before the run. */
  lemma CrashIsResumable(job: Job, stop: Stop, adapter: Adapter)
    requires Selectable(job.status) && !stop.CancelAt? && !stop.Never? && !stop.CrashAfterSnapshot?
    ensures var refs := RefsOf(job.objects);
            var stuck := stop == CrashAfterRecord && Warned(Worked(refs, |refs|, job.store, adapter).analysis);
            var after := Step(job, Select(stop), adapter);
            && (Selectable(Step(after, Recover, adapter).status) <==> !stuck)
            && (stuck ==> after.objects == job.objects && forall event :: Step(after, event, adapter) == after)
  {
  }

  /** A resumed run takes a checkpoint whose sample is missing for complete, so it can end without
      the warning that the uninterrupted run ends with. */
  lemma ResumeCanDropWarning(table: ObjectRef, o: DbObject, adapter: Adapter)
    requires table.objectType == Table && o.ref == table && o.definition == None
    requires adapter.extract(table) == Ok(o) && adapter.sample(table, o).Err?
    ensures Step(Created([table], map[]), Select(Never), adapter).status == CompletedWithWarnings
    ensures var crashed := Step(Created([table], map[]), Select(CrashInLoop(1, false)), adapter);
            Step(Step(crashed, Recover, adapter), Select(Never), adapter).status == Ready
  {
    var refs := [table];
    assert RefsOf(Created(refs, map[]).objects) == refs;
    WorkedOne(refs, map[], adapter);
    var checkpointed := Worked(refs, 1, map[], adapter).store;
    WorkedOne(refs, checkpointed, adapter);
  }

  lemma WorkedOne(refs: seq<ObjectRef>, store: Store, adapter: Adapter)
    requires |refs| == 1
    ensures var outcome := Extracted(refs[0], store, adapter);
            Worked(refs, 1, store, adapter) ==
            Work(Add(NOTHING, refs[0], outcome), store[refs[0].objectId := CheckpointOf(outcome)])
  {
  }

  // ----- What a run returns --------------------------------------------------------------

  /** An extracted object as it is kept: a definition that is not empty is redacted, and the fingerprint is
      that of the redacted text. */
  predicate IsCleaned(o: DbObject, extracted: DbObject, adapter: Adapter) {
    && o.ref == extracted.ref && o.foreignKeys == extracted.foreignKeys
    && (if extracted.definition.None? || extracted.definition.value == ""
        then o.definition == extracted.definition && o.fingerprint == extracted.fingerprint
        else && o.definition == Some(adapter.redact(extracted.definition.value))
             && o.fingerprint == Some(adapter.sha(o.definition.value)))
  }

  /** The edges recorded for an object: a table's foreign keys, or what the database answers for a routine, or
      none when it does not answer. */
  function EdgesOf(ref: ObjectRef, extracted: DbObject, adapter: Adapter): seq<Edge> {
    if ref.objectType == Table then extracted.foreignKeys
    else if adapter.routineDependencies(ref).Ok? then adapter.routineDependencies(ref).value
    else []
  }

  /** The objects that extract, in order. */
  function Readable(refs: seq<ObjectRef>, adapter: Adapter): seq<ObjectRef> {
    if refs == [] then [] else
    var before, last := Readable(refs[..|refs| - 1], adapter), refs[|refs| - 1];
    if adapter.extract(last).Ok? then before + [last] else before
  }

  predicate AllReadable(kept: seq<ObjectRef>, adapter: Adapter) {
    forall k :: 0 <= k < |kept| ==> adapter.extract(kept[k]).Ok?
  }

  function Edges(kept: seq<ObjectRef>, adapter: Adapter): seq<Edge>
    requires AllReadable(kept, adapter)
  {
    if kept == [] then []
    else
      var n := |kept| - 1;
      Edges(kept[..n], adapter) + EdgesOf(kept[n], adapter.extract(kept[n]).value, adapter)
  }

  predicate ObjectsAre(kept: seq<ObjectRef>, objects: seq<DbObject>, adapter: Adapter)
    requires AllReadable(kept, adapter)
  {
    && |objects| == |kept|
    && forall k :: 0 <= k < |kept| ==> IsCleaned(objects[k], adapter.extract(kept[k]).value, adapter)
  }

  predicate Sampled(ref: ObjectRef, o: DbObject, adapter: Adapter) {
    ref.objectType == Table && adapter.sample(ref, o).Ok?
  }

  /** The sample stored for a table is what the database answers for it, and there is none where it does not
      answer. */
  predicate SamplesAre(kept: seq<ObjectRef>, objects: seq<DbObject>, samples: map<string, Sample>, adapter: Adapter)
    requires |objects| == |kept|
  {
    && (forall k :: 0 <= k < |kept| && Sampled(kept[k], objects[k], adapter) ==>
          kept[k].objectId in samples && samples[kept[k].objectId] == adapter.sample(kept[k], objects[k]).value)
    && (forall id :: id in samples ==>
          exists k :: 0 <= k < |kept| && kept[k].objectId == id && Sampled(kept[k], objects[k], adapter))
  }

  lemma FreshMeans(ref: ObjectRef, adapter: Adapter)
    ensures Fresh(ref, adapter).NotExtracted? <==> adapter.extract(ref).Err?
    ensures adapter.extract(ref).Ok? ==>
              var x, r := adapter.extract(ref).value, Fresh(ref, adapter);
              && IsCleaned(r.extracted, x, adapter)
              && r.dependencies == EdgesOf(ref, x, adapter)
              && r.sample == (if Sampled(ref, r.extracted, adapter)
                              then Some(adapter.sample(ref, r.extracted).value) else None)
  {
  }

  lemma {:induction false} ReadableAre(refs: seq<ObjectRef>, adapter: Adapter)
    ensures AllReadable(Readable(refs, adapter), adapter)
    ensures forall ref :: ref in Readable(refs, adapter) ==> ref in refs
  {
    if refs != [] {
      ReadableAre(refs[..|refs| - 1], adapter);
    }
  }

  lemma SameCleaned(o: DbObject, p: DbObject, x: DbObject, adapter: Adapter)
    requires IsCleaned(o, x, adapter) && IsCleaned(p, x, adapter)
    ensures o == p
  {
  }

  lemma SampleNext(kept: seq<ObjectRef>, objects: seq<DbObject>, samples: map<string, Sample>, ref: ObjectRef,
                   o: DbObject, adapter: Adapter)
    requires |objects| == |kept| && SamplesAre(kept, objects, samples, adapter)
    requires forall k :: 0 <= k < |kept| && kept[k].objectId == ref.objectId ==> kept[k] == ref && objects[k] == o
    ensures var after := if Sampled(ref, o, adapter) then samples[ref.objectId := adapter.sample(ref, o).value]
                         else samples;
            SamplesAre(kept + [ref], objects + [o], after, adapter)
  {
    var all, allObjects := kept + [ref], objects + [o];
    var after := if Sampled(ref, o, adapter) then samples[ref.objectId := adapter.sample(ref, o).value] else samples;
    forall id | id in after
      ensures exists k :: 0 <= k < |all| && all[k].objectId == id && Sampled(all[k], allObjects[k], adapter)
    {
      if id in samples {
        var k :| 0 <= k < |kept| && kept[k].objectId == id && Sampled(kept[k], objects[k], adapter);
        assert all[k] == kept[k] && allObjects[k] == objects[k];
      } else {
        assert all[|kept|] == ref && allObjects[|kept|] == o;
      }
    }
  }

  predicate ResultsAre(kept: seq<ObjectRef>, a: Analysis, adapter: Adapter) {
    && AllReadable(kept, adapter)
    && ObjectsAre(kept, a.analyzed, adapter)
    && a.dependencies == Edges(kept, adapter)
    && SamplesAre(kept, a.analyzed, a.samples, adapter)
  }

  lemma ResultsNext(kept: seq<ObjectRef>, a: Analysis, ref: ObjectRef, adapter: Adapter)
    requires ResultsAre(kept, a, adapter) && adapter.extract(ref).Ok?
    requires forall k :: 0 <= k < |kept| && kept[k].objectId == ref.objectId ==> kept[k] == ref
    ensures ResultsAre(kept + [ref], Add(a, ref, Fresh(ref, adapter)), adapter)
  {
    hide Fresh, SamplesAre, IsCleaned, EdgesOf, Sampled;
    FreshMeans(ref, adapter);
    var r := Fresh(ref, adapter);
    forall k | 0 <= k < |kept| && kept[k].objectId == ref.objectId ensures a.analyzed[k] == r.extracted {
      SameCleaned(a.analyzed[k], r.extracted, adapter.extract(ref).value, adapter);
    }
    SampleNext(kept, a.analyzed, a.samples, ref, r.extracted, adapter);
    assert (kept + [ref])[..|kept|] == kept;
  }

  /** A straight run, in terms of the adapter's answers alone. */
  lemma {:induction false} StraightMeans(refs: seq<ObjectRef>, n: nat, adapter: Adapter)
    requires n <= |refs| && IdsIdentify(refs)
    ensures var kept, a := Readable(refs[..n], adapter), Straight(refs, n, adapter);
            ResultsAre(kept, a, adapter) && a.failures == n - |kept|
  {
    hide Fresh, ResultsAre, AllReadable, Add;
    if n == 0 {
      NothingRead(adapter);
    } else {
      StraightMeans(refs, n - 1, adapter);
      var ref, a := refs[n - 1], Straight(refs, n - 1, adapter);
      assert refs[..n][..n - 1] == refs[..n - 1];
      var kept := Readable(refs[..n - 1], adapter);
      FreshMeans(ref, adapter);
      KeptIdentify(refs, n - 1, adapter);
      AddFails(a, ref, Fresh(ref, adapter));
      if adapter.extract(ref).Ok? {
        ResultsNext(kept, a, ref, adapter);
      } else {
        ResultsKept(kept, a, adapter);
      }
    }
  }

  lemma ResultsKept(kept: seq<ObjectRef>, a: Analysis, adapter: Adapter)
    requires ResultsAre(kept, a, adapter)
    ensures ResultsAre(kept, a.(failures := a.failures + 1), adapter)
  {
  }

  lemma KeptIdentify(refs: seq<ObjectRef>, n: nat, adapter: Adapter)
    requires n < |refs| && IdsIdentify(refs)
    ensures var kept := Readable(refs[..n], adapter);
            forall k :: 0 <= k < |kept| && kept[k].objectId == refs[n].objectId ==> kept[k] == refs[n]
  {
    ReadableAre(refs[..n], adapter);
    var kept := Readable(refs[..n], adapter);
    forall k | 0 <= k < |kept| && kept[k].objectId == refs[n].objectId ensures kept[k] == refs[n] {
      assert kept[k] in refs[..n];
      var i :| 0 <= i < n && refs[..n][i] == kept[k];
      assert refs[i] == kept[k];
    }
  }

  lemma AddFails(a: Analysis, ref: ObjectRef, outcome: Outcome)
    ensures outcome.NotExtracted? ==> Add(a, ref, outcome) == a.(failures := a.failures + 1)
    ensures outcome.Analyzed? ==> Add(a, ref, outcome).failures == a.failures
  {
  }

  lemma NothingRead(adapter: Adapter)
    ensures ResultsAre([], NOTHING, adapter)
  {
  }

  /** Whatever happened to a job before, once a selection finishes it holds what the database answers: the
      redacted extractions of the objects that extract, in order, their edges and samples, and the number of
      objects that do not extract. */
  lemma FinishedHolds(start: Job, refs: seq<ObjectRef>, events: seq<Event>, adapter: Adapter)
    requires IdsIdentify(refs) && RespectsRefs(adapter) && Resumable(start, refs, adapter)
    requires Selectable(Run(start, events, adapter).status)
    ensures var done, kept := Step(Run(start, events, adapter), Select(Never), adapter), Readable(refs, adapter);
            && AllReadable(kept, adapter)
            && ObjectsAre(kept, done.objects, adapter)
            && done.dependencies == Edges(kept, adapter)
            && SamplesAre(kept, done.objects, done.samples, adapter)
            && done.failed == |refs| - |kept| && done.processed == done.total == |refs|
  {
    hide Run, Worked, IdsIdentify, RespectsRefs, Straight, ObjectsAre, SamplesAre, Edges, AllReadable, AllFaithful,
         RefsOf, Readable;
    RunKeepsResumable(start, events, refs, adapter);
    ResumingAgrees(start, refs, events, adapter);
    StraightMeans(refs, |refs|, adapter);
    assert refs[..|refs|] == refs;
  }

  /** A cancelled selection holds the same of the objects before the cancellation, and is not taken up again. */
  lemma CancelledHolds(job: Job, refs: seq<ObjectRef>, done: nat, adapter: Adapter)
    requires IdsIdentify(refs) && Resumable(job, refs, adapter) && Selectable(job.status) && done < |refs|
    ensures var after, kept := Step(job, Select(CancelAt(done)), adapter), Readable(refs[..done], adapter);
            && AllReadable(kept, adapter)
            && ObjectsAre(kept, after.objects, adapter)
            && after.dependencies == Edges(kept, adapter)
            && SamplesAre(kept, after.objects, after.samples, adapter)
            && after.failed == done - |kept|
            && after.status == Cancelled && forall event :: Step(after, event, adapter) == after
  {
    hide Worked, IdsIdentify, Straight, ObjectsAre, SamplesAre, Edges, AllReadable, AllFaithful, RefsOf, Readable;
    WorkedIsStraight(refs, done, job.store, adapter);
    StraightMeans(refs, done, adapter);
  }

  /** What the loop has visited is in the store: completed when the object extracts, failed when not. */
  lemma {:induction false} WorkedStores(refs: seq<ObjectRef>, n: nat, store: Store, adapter: Adapter, i: nat)
    requires i < n <= |refs| && IdsIdentify(refs) && AllFaithful(store, refs, adapter)
    ensures var after := Worked(refs, n, store, adapter).store;
            && refs[i].objectId in after
            && (if adapter.extract(refs[i]).Ok? then after[refs[i].objectId].Completed?
                else after[refs[i].objectId] == FailedExtraction)
  {
    hide IdsIdentify, Worked, Cleaned, AnalyzeObject;
    WorkNext(refs, n - 1, store, adapter);
    WorkedIsStraight(refs, n - 1, store, adapter);
    var before := Worked(refs, n - 1, store, adapter).store;
    assert Faithful(before, refs[n - 1], adapter);
    VisitedIsStored(refs[n - 1], before, adapter);
    if i < n - 1 {
      WorkedStores(refs, n - 1, store, adapter, i);
      SameIdSameRef(refs, i, n - 1);
    }
  }

  lemma SameIdSameRef(refs: seq<ObjectRef>, i: nat, j: nat)
    requires IdsIdentify(refs) && i < |refs| && j < |refs|
    ensures refs[i].objectId == refs[j].objectId ==> refs[i] == refs[j]
  {
  }

  lemma VisitedIsStored(ref: ObjectRef, store: Store, adapter: Adapter)
    requires Faithful(store, ref, adapter)
    ensures var c := CheckpointOf(Extracted(ref, store, adapter));
            if adapter.extract(ref).Ok? then c.Completed? else c == FailedExtraction
  {
  }

  /** A crash in the loop loses no visited object: its checkpoint is there for the next selection. */
  lemma CrashKeepsWork(job: Job, refs: seq<ObjectRef>, done: nat, halfway: bool, adapter: Adapter, i: nat)
    requires IdsIdentify(refs) && Resumable(job, refs, adapter) && Selectable(job.status)
    requires i < done <= |refs|
    ensures var after := Step(job, Select(CrashInLoop(done, halfway)), adapter);
            && after.status == Running && RefsOf(after.objects) == refs
            && refs[i].objectId in after.store
            && (adapter.extract(refs[i]).Ok? ==> after.store[refs[i].objectId].Completed?)
  {
    hide Worked, IdsIdentify, AllFaithful, RefsOf, Extracted, CheckpointOf;
    WorkedStores(refs, done, job.store, adapter, i);
    if halfway && done < |refs| {
      WorkNext(refs, done, job.store, adapter);
      WorkedStores(refs, done + 1, job.store, adapter, i);
    }
  }

  /** Reading an object is incomplete when it does not extract, or a table's sample or a routine's
      dependencies are not answered. */
  lemma IncompleteMeans(ref: ObjectRef, adapter: Adapter)
    ensures Incomplete(ref, adapter) <==>
            || adapter.extract(ref).Err?
            || (ref.objectType != Table && adapter.routineDependencies(ref).Err?)
            || (ref.objectType == Table &&
                exists o :: IsCleaned(o, adapter.extract(ref).value, adapter) && adapter.sample(ref, o).Err?)
  {
    if adapter.extract(ref).Ok? {
      var x := adapter.extract(ref).value;
      assert IsCleaned(Cleaned(x, adapter), x, adapter);
      forall o | IsCleaned(o, x, adapter) ensures o == Cleaned(x, adapter) {
        SameCleaned(o, Cleaned(x, adapter), x, adapter);
      }
    }
  }

  // ----- The service ---------------------------------------------------------------------

  class CatalogService {
    const adapter: Adapter
    var status: Status
    var total: nat
    var processed: nat
    var objects: seq<DbObject>
    var samples: map<string, Sample>
    var dependencies: seq<Edge>
    var failed: nat
    var store: Store

    constructor (refs: seq<ObjectRef>, carried: Store, adapter: Adapter)
      ensures Contents() == Created(refs, carried) && this.adapter == adapter
    {
      this.adapter := adapter;
      status, total, processed, failed := AwaitingSelection, |refs|, 0, 0;
      objects := seq(|refs|, i requires 0 <= i < |refs| => Placeholder(refs[i]));
      samples, dependencies, store := map[], [], carried;
    }

    function Contents(): Job
      reads this
    {
      Job(status, total, processed, objects, samples, dependencies, failed, store)
    }

    /** At start-up, work that was interrupted waits for a selection again. */
    method Recover()
      modifies this`status
      ensures Contents() == Step(old(Contents()), Event.Recover, adapter)
      ensures status != Running && (old(status) == Running ==> Selectable(status))
      ensures old(status) != Running ==> status == old(status)
    {
      if status == Running {
        status := AwaitingSelection;
      }
    }

    method Select(stop: Stop) returns (accepted: bool)
      modifies this
      ensures accepted == Selectable(old(status))
      ensures Contents() == Step(old(Contents()), Event.Select(stop), adapter)
    {
      accepted := Selectable(status);
      if accepted {
        status := Running;
        RunPhaseTwo(stop);
      }
    }

    /** The checkpointed loop. `stop` says where the process dies or the cancellation is seen. */
    method RunPhaseTwo(stop: Stop)
      requires status == Running
      modifies this
      ensures Contents() == PhaseTwo(old(Contents()), stop, adapter)
    {
      hide Extracted, Worked, CheckpointOf, RecordFirst;
      var refs := RefsOf(objects);
      var analysis := NOTHING;
      WorkStarts(refs, store, adapter);
      for position := 0 to |refs|
        invariant status == Running && objects == old(objects) && samples == old(samples)
        invariant dependencies == old(dependencies) && failed == old(failed) && total == old(total)
        invariant processed == if position > 0 then position else old(processed)
        invariant stop.CrashInLoop? || stop.CancelAt? ==> position <= stop.done
        invariant Worked(refs, position, old(store), adapter) == Work(analysis, store)
      {
        if stop.CancelAt? && stop.done == position {
          status, objects, samples, dependencies :=
            Cancelled, analysis.analyzed, analysis.samples, analysis.dependencies;
          failed := analysis.failures;
          return;
        }
        if stop.CrashInLoop? && stop.done == position && !stop.halfway {
          return;
        }
        WorkNext(refs, position, old(store), adapter);
        var ref := refs[position];
        var outcome := Extracted(ref, store, adapter);
        analysis := Add(analysis, ref, outcome);
        if RecordFirst(ref, store, outcome) {
          processed := position + 1;
          if stop.CrashInLoop? && stop.done == position {
            return;
          }
          store := store[ref.objectId := CheckpointOf(outcome)];
        } else {
          store := store[ref.objectId := CheckpointOf(outcome)];
          if stop.CrashInLoop? && stop.done == position {
            return;
          }
          processed := position + 1;
        }
      }
      if stop.CrashInLoop? {
        return;
      }
      status, processed := FinalStatus(analysis), total;
      if stop == CrashAfterRecord {
        return;
      }
      objects, samples, dependencies := analysis.analyzed, analysis.samples, analysis.dependencies;
      if stop == CrashAfterSnapshot {
        return;
      }
      failed := analysis.failures;
    }
  }

  lemma WorkStarts(refs: seq<ObjectRef>, store: Store, adapter: Adapter)
    ensures Worked(refs, 0, store, adapter) == Work(NOTHING, store)
  {
  }

  lemma WorkNext(refs: seq<ObjectRef>, n: nat, store: Store, adapter: Adapter)
    requires n < |refs|
    ensures var before := Worked(refs, n, store, adapter);
            var outcome := Extracted(refs[n], before.store, adapter);
            Worked(refs, n + 1, store, adapter) ==
            Work(Add(before.analysis, refs[n], outcome), before.store[refs[n].objectId := CheckpointOf(outcome)])
  {
  }
}
