/** The managed-folder service over runs: plans are stored, applied later and in any order, and the
    manifest keeps naming files with the recorded hashes. */
module ManagedFolder {
  import opened Text
  import opened FileTree
  import opened ManagedHeader
  import opened CategoryRules
  import opened FolderPlanning
  import opened FolderApply
  import opened FolderFixpoint

  datatype PlanKind = Classification | ManagedResolution

  datatype StoredPlan = StoredPlan(
    kind: PlanKind,
    records: seq<Record>,
    manifestSeen: Option<seq<Entry>>,
    expiresAt: int,
    applied: bool)

  /** The registered folder: what the file system is like, its engine and its rules. */
  datatype Folder = Folder(fs: FileSystem, engine: Engine, rules: Option<seq<CategoryRule>>, sha: Sha)

  datatype State = State(tree: Tree, manifest: Option<seq<Entry>>, plans: map<string, StoredPlan>)

  // ----- Planning ------------------------------------------------------------------------

  function Request(folder: Folder, resolutions: map<string, Resolution>): PlanRequest {
    PlanRequest(folder.engine, folder.rules, true, resolutions)
  }

  const OWNER_EVIDENCE := "owner:managed_file_resolution"
  const FILE_NOT_FOUND := "FOLDER_MANAGED_FILE_NOT_FOUND"
  const HEADER_REQUIRED := "FOLDER_MANAGED_HEADER_REQUIRED"
  const DESTINATION_EXISTS := "FOLDER_RESOLUTION_DESTINATION_EXISTS"
  const MANIFEST_REQUIRED := "FOLDER_MANAGED_MANIFEST_REQUIRED"
  const MANIFEST_DRIFT := "FOLDER_MANAGED_MANIFEST_DRIFT"

  /** The manifest entries for a path. */
  function EntriesFor(manifest: seq<Entry>, path: string): seq<Entry> {
    if manifest == [] then []
    else
      var e := manifest[|manifest| - 1];
      var before := EntriesFor(manifest[..|manifest| - 1], path);
      if Casefold(e.path) == Casefold(path) then before + [e] else before
  }

  /** An owner's resolution of one managed file, checked against the applied manifest. */
  function PlanResolution(folder: Folder, s: State, path: string, resolution: Resolution): Result<Planned> {
    if Key(folder.fs, path) !in s.tree then Err(FILE_NOT_FOUND) else
    var content := Content(folder.fs, s.tree, path);
    if Parse(content).Err? then Err(HEADER_REQUIRED) else
    match ReadIdentity(content, folder.engine, folder.sha)
    case Err(code) => Err(code)
    case Ok((h, body)) =>
      match Validated(h.(context := Some(resolution.context), description := resolution.description,
                         tags := resolution.tags, evidence := SortedSet(h.evidence + [OWNER_EVIDENCE]),
                         status := Confirmed, source := Owner))
      case Err(code) => Err(code)
      case Ok(resolved) =>
        var destination := resolution.context + "/" + TypeFolder(h.objectType) + "/" + Name(path);
        if Key(folder.fs, destination) != Key(folder.fs, path) && Key(folder.fs, destination) in s.tree
        then Err(DESTINATION_EXISTS)
        else if s.manifest.None? then Err(MANIFEST_REQUIRED)
        else if var entries := EntriesFor(s.manifest.value, path);
                |entries| != 1 || entries[0].sha256 != folder.sha(content)
        then Err(MANIFEST_DRIFT)
        else Ok(Planned(path, content, resolved, body, destination))
  }

  // ----- Applying ------------------------------------------------------------------------

  const PLAN_NOT_FOUND := "FOLDER_PLAN_NOT_FOUND"
  const PLAN_EXPIRED := "FOLDER_PLAN_EXPIRED"
  const APPROVAL_REQUIRED := "APPROVAL_REQUIRED"

  /** Everything that can refuse an application, before anything is written. */
  function Checked(folder: Folder, s: State, id: string, now: int, approved: bool): Result<seq<string>> {
    if id !in s.plans then Err(PLAN_NOT_FOUND) else
    var plan := s.plans[id];
    if plan.expiresAt <= now then Err(PLAN_EXPIRED)
    else if !approved then Err(APPROVAL_REQUIRED)
    else
      match Stage(folder.fs, s.tree, plan.records, |plan.records|, folder.engine, folder.sha)
      case Err(code) => Err(code)
      case Ok(texts) =>
        if plan.kind == ManagedResolution && (s.manifest.None? || s.manifest != plan.manifestSeen)
        then Err(MANIFEST_DRIFT)
        else Ok(texts)
  }

  function PreservedAll(manifest: seq<Entry>, records: seq<Record>): seq<Entry> {
    if records == [] then manifest else Preserved(PreservedAll(manifest, records[1..]), records[0])
  }

  function NewManifest(s: State, plan: StoredPlan): seq<Entry> {
    if plan.kind == ManagedResolution && s.manifest.Some?
    then PreservedAll(s.manifest.value, plan.records) + EntriesOf(plan.records)
    else EntriesOf(plan.records)
  }

  // ----- Steps and runs ------------------------------------------------------------------

  datatype Op =
    | PlanOp(id: string, files: seq<string>, resolutions: map<string, Resolution>, expiresAt: int)
    | ResolveOp(id: string, path: string, resolution: Resolution, expiresAt: int)
    | ApplyOp(id: string, now: int, approved: bool)

  /** What each operation leaves behind. A refused one leaves the state as it was. */
  function Step(folder: Folder, s: State, op: Op): State
    requires op.PlanOp? ==> Stored(folder.fs, s.tree, op.files)
  {
    match op
    case PlanOp(id, files, resolutions, expiresAt) =>
      (match Plan(folder.fs, s.tree, files, Request(folder, resolutions), folder.sha)
       case Err(_) => s
       case Ok(items) =>
         s.(plans := s.plans[id := StoredPlan(Classification, RecordsOf(items, folder.sha), None, expiresAt, false)]))
    case ResolveOp(id, path, resolution, expiresAt) =>
      (match PlanResolution(folder, s, path, resolution)
       case Err(_) => s
       case Ok(p) =>
         s.(plans := s.plans[id := StoredPlan(ManagedResolution, [RecordOf(p, folder.sha)], s.manifest,
             expiresAt, false)]))
    case ApplyOp(id, now, approved) =>
      (match Checked(folder, s, id, now, approved)
       case Err(_) => s
       case Ok(texts) =>
         var plan := s.plans[id];
         State(ApplyTree(folder.fs, s.tree, plan.records, texts), Some(NewManifest(s, plan)),
               s.plans[id := plan.(applied := true)]))
  }

  predicate SoundPlan(folder: Folder, plan: StoredPlan) {
    && DistinctDestinations(plan.records)
    && LosesNothing(folder.fs, plan.records)
    && (plan.kind == ManagedResolution ==> |plan.records| == 1)
  }

  /** Every manifest entry names a file with that hash, and no stored plan can lose a file. */
  predicate Invariant(folder: Folder, s: State) {
    && (s.manifest.Some? ==> ManifestHolds(folder.fs, s.tree, s.manifest.value, folder.sha))
    && (forall id :: id in s.plans ==> SoundPlan(folder, s.plans[id]))
  }

  /** A classification plans the files that are there, and no file of its plan is overtaken. */
  predicate Admissible(folder: Folder, s: State, op: Op) {
    op.PlanOp? ==>
      && IsListing(folder.fs, s.tree, op.files)
      && Stored(folder.fs, s.tree, op.files)
      && var plan := Plan(folder.fs, s.tree, op.files, Request(folder, op.resolutions), folder.sha);
         plan.Ok? ==> NoneOvertaken(folder.fs, plan.value)
  }

  lemma SingleRecordIsSound(fs: FileSystem, r: Record)
    ensures DistinctDestinations([r]) && LosesNothing(fs, [r])
  {
    KeyFold(fs, r.source, r.destination);
  }

  lemma PreservedAllOne(manifest: seq<Entry>, r: Record)
    ensures PreservedAll(manifest, [r]) == Preserved(manifest, r)
  {
    assert [r][1..] == [];
  }

  lemma StageOne(folder: Folder, tree: Tree, r: Record)
    ensures Stage(folder.fs, tree, [r], 1, folder.engine, folder.sha) ==
            match StageText(folder.fs, tree, r, folder.engine, folder.sha)
            case Err(code) => Err(code)
            case Ok(text) => Ok([text])
  {
    hide StageText;
    var none := Stage(folder.fs, tree, [r], 0, folder.engine, folder.sha);
    assert none == Ok([]);
    var text := StageText(folder.fs, tree, r, folder.engine, folder.sha);
    if text.Ok? {
      assert none.value + [text.value] == [text.value];
    }
  }

  lemma ApplyKeepsManifest(folder: Folder, s: State, plan: StoredPlan, texts: seq<string>)
    requires s.manifest.Some? ==> ManifestHolds(folder.fs, s.tree, s.manifest.value, folder.sha)
    requires SoundPlan(folder, plan) && (plan.kind == ManagedResolution ==> s.manifest.Some?)
    requires Stage(folder.fs, s.tree, plan.records, |plan.records|, folder.engine, folder.sha) == Ok(texts)
    ensures ManifestHolds(folder.fs, ApplyTree(folder.fs, s.tree, plan.records, texts), NewManifest(s, plan),
        folder.sha)
  {
    hide Stage, StageText, ApplyTree, ManifestHolds, DistinctDestinations, LosesNothing, Preserved, PreservedAll;
    if plan.kind == Classification {
      ClassificationManifest(folder.fs, s.tree, plan.records, folder.engine, folder.sha);
    } else {
      var r := plan.records[0];
      assert plan.records == [r];
      StageOne(folder, s.tree, r);
      PreservedAllOne(s.manifest.value, r);
      ResolutionManifest(folder.fs, s.tree, s.manifest.value, r, folder.engine, folder.sha);
    }
  }

  lemma StepKeepsInvariant(folder: Folder, s: State, op: Op)
    requires Invariant(folder, s) && Admissible(folder, s, op)
    ensures Invariant(folder, Step(folder, s, op))
  {
    hide Plan, PlanResolution, Stage, ApplyTree, ManifestHolds, DistinctDestinations, LosesNothing, NewManifest,
         IsListing, Stored, NoneOvertaken;
    match op
    case PlanOp(id, files, resolutions, expiresAt) =>
      var request := Request(folder, resolutions);
      if Plan(folder.fs, s.tree, files, request, folder.sha).Ok? {
        PlanRecords(folder.fs, s.tree, files, request, folder.sha);
        PlanLosesNothing(folder.fs, s.tree, files, request, folder.sha);
      }
    case ResolveOp(id, path, resolution, expiresAt) =>
      var r := PlanResolution(folder, s, path, resolution);
      if r.Ok? {
        SingleRecordIsSound(folder.fs, RecordOf(r.value, folder.sha));
      }
    case ApplyOp(id, now, approved) =>
      var checked := Checked(folder, s, id, now, approved);
      if checked.Ok? {
        ApplyKeepsManifest(folder, s, s.plans[id], checked.value);
      }
  }

  function Run(folder: Folder, s: State, ops: seq<Op>): State
    requires AllAdmissible(folder, s, ops)
    decreases |ops|
  {
    if ops == [] then s else Run(folder, Step(folder, s, ops[0]), ops[1..])
  }

  predicate AllAdmissible(folder: Folder, s: State, ops: seq<Op>)
    decreases |ops|
  {
    ops == [] || (Admissible(folder, s, ops[0]) && AllAdmissible(folder, Step(folder, s, ops[0]), ops[1..]))
  }

  /** Over every sequence of plans, resolutions and applications, in any order and with any
      refusals, every manifest entry names a file with that hash. */
  lemma {:induction false} RunKeepsInvariant(folder: Folder, s: State, ops: seq<Op>)
    requires Invariant(folder, s) && AllAdmissible(folder, s, ops)
    ensures Invariant(folder, Run(folder, s, ops))
    decreases |ops|
  {
    hide Invariant, Step, Stored, IsListing, NoneOvertaken, Plan;
    if ops != [] {
      StepKeepsInvariant(folder, s, ops[0]);
      RunKeepsInvariant(folder, Step(folder, s, ops[0]), ops[1..]);
    }
  }

  /** Neither a moved source nor a destination. */
  predicate Uninvolved(fs: FileSystem, records: seq<Record>, key: string) {
    !Unlinked(fs, records, key) && forall j :: 0 <= j < |records| ==> Key(fs, records[j].destination) != key
  }

  /** A successful application: every planned object stands at its destination with the text whose
      hash was planned, and every other file that is not a moved source is untouched. */
  lemma AppliedObjects(folder: Folder, s: State, id: string, now: int, approved: bool)
    requires Invariant(folder, s) && Checked(folder, s, id, now, approved).Ok?
    ensures var texts := Checked(folder, s, id, now, approved).value;
            var plan := s.plans[id];
            var after := Step(folder, s, ApplyOp(id, now, approved)).tree;
            && |texts| == |plan.records|
            && (forall j :: 0 <= j < |texts| ==>
                  && Holds(folder.fs, after, plan.records[j].destination, texts[j])
                  && ReadText(texts[j]) == texts[j]
                  && folder.sha(texts[j]) == plan.records[j].outputHash)
            && (forall key | key in s.tree && Uninvolved(folder.fs, plan.records, key) ::
                  key in after && after[key] == s.tree[key])
  {
    hide Stage, StageText, ApplyTree, ManifestHolds, DistinctDestinations, LosesNothing, NewManifest, ReadText,
         Unlinked;
    var texts := Checked(folder, s, id, now, approved).value;
    var plan := s.plans[id];
    var after := ApplyTree(folder.fs, s.tree, plan.records, texts);
    assert SoundPlan(folder, plan);
    ApplyOutcome(folder.fs, s.tree, plan.records, texts);
    forall j | 0 <= j < |texts|
      ensures ReadText(texts[j]) == texts[j] && folder.sha(texts[j]) == plan.records[j].outputHash
    {
      StagedText(folder.fs, s.tree, plan.records, |plan.records|, folder.engine, folder.sha, j);
      StagedReadsBack(folder.fs, s.tree, plan.records[j], folder.engine, folder.sha);
    }
    forall key | key in s.tree && Uninvolved(folder.fs, plan.records, key)
      ensures key in after && after[key] == s.tree[key]
    {
      ApplyElsewhere(folder.fs, s.tree, plan.records, texts, key);
    }
  }

  /** A stored plan is applied exactly when it is known, in time and approved, every file is still as it was
      planned, and for an owner's resolution the manifest too; what fails first decides the error. */
  lemma CheckedExactly(folder: Folder, s: State, id: string, now: int, approved: bool)
    ensures Checked(folder, s, id, now, approved).Ok? <==>
            && id in s.plans && now < s.plans[id].expiresAt && approved
            && (forall i :: 0 <= i < |s.plans[id].records| ==>
                  Stageable(folder.fs, s.tree, s.plans[id].records[i], folder.engine, folder.sha))
            && (s.plans[id].kind == ManagedResolution ==>
                  s.manifest.Some? && s.manifest == s.plans[id].manifestSeen)
    ensures id !in s.plans ==> Checked(folder, s, id, now, approved) == Err(PLAN_NOT_FOUND)
    ensures id in s.plans && s.plans[id].expiresAt <= now ==> Checked(folder, s, id, now, approved) == Err(PLAN_EXPIRED)
    ensures id in s.plans && now < s.plans[id].expiresAt && !approved ==>
              Checked(folder, s, id, now, approved) == Err(APPROVAL_REQUIRED)
  {
    hide Stage, Stageable;
    if id in s.plans {
      StagedExactly(folder.fs, s.tree, s.plans[id].records, |s.plans[id].records|, folder.engine, folder.sha);
    }
  }

  // ----- Plans that cannot be applied ----------------------------------------------------

  /** A stored plan that holds a header which is not valid, such as that of an object more than 64
      categories claim, is refused in every state and leaves everything as it is. */
  lemma InvalidPlanNeverApplies(folder: Folder, s: State, id: string, now: int, approved: bool, i: nat)
    requires id in s.plans && i < |s.plans[id].records| && !Valid(s.plans[id].records[i].header)
    ensures Checked(folder, s, id, now, approved).Err?
    ensures Step(folder, s, ApplyOp(id, now, approved)) == s
  {
    hide Stage, Valid, BodyOf, ApplyTree, NewManifest, Render;
    var plan := s.plans[id];
    var staged := Stage(folder.fs, s.tree, plan.records, |plan.records|, folder.engine, folder.sha);
    if staged.Ok? {
      StagedText(folder.fs, s.tree, plan.records, |plan.records|, folder.engine, folder.sha, i);
    }
  }

  // ----- Owner resolutions ---------------------------------------------------------------

  /** What the owner decided about an object, and what the file said of itself. */
  predicate IsResolved(p: Planned, h: Header, resolution: Resolution) {
    && p.header.context == Some(resolution.context) && p.header.description == resolution.description
    && p.header.tags == resolution.tags && p.header.status == Confirmed && p.header.source == Owner
    && p.header.objectId == h.objectId && p.header.objectType == h.objectType && p.header.engine == h.engine
    && p.header.schemaName == h.schemaName && p.header.objectName == h.objectName
    && p.header.contentHash == h.contentHash
  }

  lemma ResolutionParts(folder: Folder, s: State, path: string, resolution: Resolution)
    requires PlanResolution(folder, s, path, resolution).Ok?
    ensures Key(folder.fs, path) in s.tree
    ensures var p := PlanResolution(folder, s, path, resolution).value;
            && p.source == path && p.content == Content(folder.fs, s.tree, path) && Valid(p.header)
            && ReadIdentity(p.content, folder.engine, folder.sha).Ok?
            && IsResolved(p, ReadIdentity(p.content, folder.engine, folder.sha).value.0, resolution)
            && p.body == ReadIdentity(p.content, folder.engine, folder.sha).value.1
  {
    hide ReadIdentity, Parse, Valid, Content, EntriesFor, SortedSet, Name;
  }

  /** A resolution that was planned can be applied at once. */
  lemma ResolutionIsReady(folder: Folder, s: State, id: string, path: string, resolution: Resolution, expiresAt: int,
                          now: int)
    requires PlanResolution(folder, s, path, resolution).Ok? && now < expiresAt
    ensures Checked(folder, Step(folder, s, ResolveOp(id, path, resolution, expiresAt)), id, now, true)
         == Ok([PlanResolution(folder, s, path, resolution).value.Rendered()])
  {
    hide PlanResolution, Stage, StageText, Planned.Rendered;
    ResolutionStages(folder, s, path, resolution);
    var p := PlanResolution(folder, s, path, resolution).value;
    StageOne(folder, s.tree, RecordOf(p, folder.sha));
    ResolutionHasManifest(folder, s, path, resolution);
  }

  lemma ResolutionHasManifest(folder: Folder, s: State, path: string, resolution: Resolution)
    requires PlanResolution(folder, s, path, resolution).Ok?
    ensures s.manifest.Some?
  {
    hide ReadIdentity, Parse, Valid, Content, EntriesFor, SortedSet, Name;
  }

  lemma ResolutionStages(folder: Folder, s: State, path: string, resolution: Resolution)
    requires PlanResolution(folder, s, path, resolution).Ok?
    ensures var p := PlanResolution(folder, s, path, resolution).value;
            StageText(folder.fs, s.tree, RecordOf(p, folder.sha), folder.engine, folder.sha) == Ok(p.Rendered())
  {
    hide PlanResolution, ReadIdentity, BodyOf, Content, Valid, Render, IsResolved;
    ResolutionParts(folder, s, path, resolution);
    var p := PlanResolution(folder, s, path, resolution).value;
    BodyIsRead(p.content, folder.engine, folder.sha);
  }

  /** A planned resolution, applied, does what the owner asked: the file at its destination reads as the
      same object with the same body and the owner's classification, the old place is empty if it was
      another, and every other file is as it was. */
  lemma ResolutionRoundTrip(folder: Folder, s: State, id: string, path: string, resolution: Resolution,
                            expiresAt: int, now: int)
    requires PlanResolution(folder, s, path, resolution).Ok? && now < expiresAt
    ensures var p := PlanResolution(folder, s, path, resolution).value;
            var planned := Step(folder, s, ResolveOp(id, path, resolution, expiresAt));
            var after := Step(folder, planned, ApplyOp(id, now, true)).tree;
            && ReadIdentity(p.content, folder.engine, folder.sha).Ok?
            && IsResolved(p, ReadIdentity(p.content, folder.engine, folder.sha).value.0, resolution)
            && Key(folder.fs, p.destination) in after
            && ReadIdentity(Content(folder.fs, after, p.destination), folder.engine, folder.sha)
               == Ok((p.header, ReadIdentity(p.content, folder.engine, folder.sha).value.1))
            && (Casefold(path) != Casefold(p.destination) ==> Key(folder.fs, path) !in after)
            && (forall key :: key != Key(folder.fs, path) && key != Key(folder.fs, p.destination) ==>
                  (key in after <==> key in s.tree) && (key in after ==> after[key] == s.tree[key]))
  {
    hide PlanResolution, ReadIdentity, Valid, Render, IsResolved, Stage, StageText, Casefold, Spelled, NewManifest,
         ReadText, ApplyTree;
    var p := PlanResolution(folder, s, path, resolution).value;
    var r := RecordOf(p, folder.sha);
    ResolutionParts(folder, s, path, resolution);
    ResolutionIsReady(folder, s, id, path, resolution, expiresAt, now);
    ResolutionStages(folder, s, path, resolution);
    StagedReadsBack(folder.fs, s.tree, r, folder.engine, folder.sha);
    OneApplied(folder.fs, s.tree, r, p.Rendered());
    KeyFold(folder.fs, path, p.destination);
    ResolvedReadsBack(p, ReadIdentity(p.content, folder.engine, folder.sha).value.0, resolution, folder);
  }

  lemma ResolvedReadsBack(p: Planned, h: Header, resolution: Resolution, folder: Folder)
    requires ReadIdentity(p.content, folder.engine, folder.sha) == Ok((h, p.body)) && IsResolved(p, h, resolution)
    requires Valid(p.header)
    ensures ReadIdentity(p.Rendered(), folder.engine, folder.sha) == Ok((p.header, p.body))
  {
    hide ReadIdentity, Valid, Render;
    ReadsBack(p.content, p.header, folder.engine, folder.sha);
  }

  /** The manifest has one entry for the path, ignoring case, and it holds. */
  predicate Listed(manifest: seq<Entry>, path: string, hash: string) {
    exists i :: 0 <= i < |manifest| && Casefold(manifest[i].path) == Casefold(path) && manifest[i].sha256 == hash
                && forall j :: 0 <= j < |manifest| && j != i ==> Casefold(manifest[j].path) != Casefold(path)
  }

  lemma {:induction false} EntriesAre(manifest: seq<Entry>, path: string)
    ensures EntriesFor(manifest, path) == [] <==>
            forall i :: 0 <= i < |manifest| ==> Casefold(manifest[i].path) != Casefold(path)
    ensures |EntriesFor(manifest, path)| == 1 ==> Listed(manifest, path, EntriesFor(manifest, path)[0].sha256)
    ensures forall hash :: Listed(manifest, path, hash) ==>
              |EntriesFor(manifest, path)| == 1 && EntriesFor(manifest, path)[0].sha256 == hash
  {
    hide Casefold;
    if manifest != [] {
      var n := |manifest| - 1;
      var init, e := manifest[..n], manifest[n];
      EntriesAre(init, path);
      assert forall i :: 0 <= i < n ==> init[i] == manifest[i];
      if Casefold(e.path) == Casefold(path) {
        if EntriesFor(init, path) == [] {
          assert manifest[n] == e;
        }
        forall hash | Listed(manifest, path, hash)
          ensures EntriesFor(init, path) == [] && e.sha256 == hash
        {
          var i :| 0 <= i < |manifest| && Casefold(manifest[i].path) == Casefold(path) && manifest[i].sha256 == hash
                   && forall j :: 0 <= j < |manifest| && j != i ==> Casefold(manifest[j].path) != Casefold(path);
          assert i == n;
        }
      } else {
        if |EntriesFor(init, path)| == 1 {
          ListedNext(init, e, path, EntriesFor(init, path)[0].sha256);
          assert manifest == init + [e];
        }
        forall hash | Listed(manifest, path, hash) ensures Listed(init, path, hash) {
          var i :| 0 <= i < |manifest| && Casefold(manifest[i].path) == Casefold(path) && manifest[i].sha256 == hash
                   && forall j :: 0 <= j < |manifest| && j != i ==> Casefold(manifest[j].path) != Casefold(path);
          assert init[i] == manifest[i];
        }
      }
    }
  }

  lemma ListedNext(init: seq<Entry>, e: Entry, path: string, hash: string)
    requires Listed(init, path, hash) && Casefold(e.path) != Casefold(path)
    ensures Listed(init + [e], path, hash)
  {
    hide Casefold;
    var i :| 0 <= i < |init| && Casefold(init[i].path) == Casefold(path) && init[i].sha256 == hash
             && forall j :: 0 <= j < |init| && j != i ==> Casefold(init[j].path) != Casefold(path);
    assert (init + [e])[i] == init[i];
  }

  /** What an owner's resolution makes of a header. */
  function OwnersHeader(h: Header, resolution: Resolution): Header {
    h.(context := Some(resolution.context), description := resolution.description, tags := resolution.tags,
       evidence := SortedSet(h.evidence + [OWNER_EVIDENCE]), status := Confirmed, source := Owner)
  }

  lemma OwnersKeepType(h: Header, resolution: Resolution)
    ensures OwnersHeader(h, resolution).objectType == h.objectType
  {
  }

  /** No other file stands there. */
  predicate FreeFor(folder: Folder, tree: Tree, path: string, destination: string) {
    Key(folder.fs, destination) in tree ==> Key(folder.fs, destination) == Key(folder.fs, path)
  }

  lemma OneListed(manifest: seq<Entry>, path: string, hash: string)
    ensures |EntriesFor(manifest, path)| == 1 && EntriesFor(manifest, path)[0].sha256 == hash <==>
            Listed(manifest, path, hash)
  {
    hide EntriesFor, Listed;
    EntriesAre(manifest, path);
  }

  lemma ResolutionUnfold(folder: Folder, s: State, path: string, resolution: Resolution, h: Header, body: string)
    requires Key(folder.fs, path) in s.tree && Parse(Content(folder.fs, s.tree, path)).Ok?
    requires ReadIdentity(Content(folder.fs, s.tree, path), folder.engine, folder.sha) == Ok((h, body))
    ensures var content := Content(folder.fs, s.tree, path);
            var destination := resolution.context + "/" + TypeFolder(h.objectType) + "/" + Name(path);
            var planned := PlanResolution(folder, s, path, resolution);
            && (planned.Ok? <==>
                  && Valid(OwnersHeader(h, resolution)) && FreeFor(folder, s.tree, path, destination)
                  && s.manifest.Some?
                  && var entries := EntriesFor(s.manifest.value, path);
                     |entries| == 1 && entries[0].sha256 == folder.sha(content))
            && (planned.Ok? ==> planned.value == Planned(path, content, OwnersHeader(h, resolution), body, destination))
  {
    hide ReadIdentity, Parse, Valid, Content, EntriesFor, SortedSet, Name, TypeFolder, Key;
  }

  /** A resolution is planned exactly for a managed file that can be read, whose resolved header is valid, that the
      manifest lists with its present hash, and for a free place or the file's own; it goes to the owner's context. */
  lemma ResolutionIsGuarded(folder: Folder, s: State, path: string, resolution: Resolution)
    ensures var planned := PlanResolution(folder, s, path, resolution);
            planned.Ok? <==>
              && Key(folder.fs, path) in s.tree
              && var content := Content(folder.fs, s.tree, path);
                 && Parse(content).Ok?
                 && ReadIdentity(content, folder.engine, folder.sha).Ok?
                 && var h := ReadIdentity(content, folder.engine, folder.sha).value.0;
                    && Valid(OwnersHeader(h, resolution))
                    && FreeFor(folder, s.tree, path, resolution.context + TypePart(h.objectType) + Name(path))
                    && s.manifest.Some? && Listed(s.manifest.value, path, folder.sha(content))
    ensures var planned := PlanResolution(folder, s, path, resolution);
            planned.Ok? ==>
              planned.value.destination == resolution.context + TypePart(planned.value.header.objectType) + Name(path)
  {
    hide ReadIdentity, Parse, Valid, Content, EntriesFor, Name, Listed, FreeFor, PlanResolution, OwnersHeader, TypePart,
         TypeFolder, Key;
    if Key(folder.fs, path) in s.tree {
      var content := Content(folder.fs, s.tree, path);
      if Parse(content).Ok? && ReadIdentity(content, folder.engine, folder.sha).Ok? {
        var (h, body) := ReadIdentity(content, folder.engine, folder.sha).value;
        ResolutionUnfold(folder, s, path, resolution, h, body);
        PlaceIs(resolution.context, h.objectType, Name(path));
        OwnersKeepType(h, resolution);
        if s.manifest.Some? {
          OneListed(s.manifest.value, path, folder.sha(content));
        }
      } else {
        Unreadable(folder, s, path, resolution);
      }
    } else {
      Unreadable(folder, s, path, resolution);
    }
  }

  lemma Unreadable(folder: Folder, s: State, path: string, resolution: Resolution)
    requires Key(folder.fs, path) in s.tree ==>
               || Parse(Content(folder.fs, s.tree, path)).Err?
               || ReadIdentity(Content(folder.fs, s.tree, path), folder.engine, folder.sha).Err?
    ensures PlanResolution(folder, s, path, resolution).Err?
  {
    hide ReadIdentity, Parse, Valid, Content, EntriesFor, SortedSet, Name, Key;
  }

  // ----- The service ---------------------------------------------------------------------

  class ManagedFolderService {
    const folder: Folder
    var tree: Tree
    var manifest: Option<seq<Entry>>
    var plans: map<string, StoredPlan>

    constructor (folder: Folder, tree: Tree)
      ensures this.folder == folder && Contents() == State(tree, None, map[])
      ensures Invariant(folder, Contents())
    {
      this.folder := folder;
      this.tree, manifest, plans := tree, None, map[];
    }

    function Contents(): State
      reads this
    {
      State(tree, manifest, plans)
    }

    /** Plans every SQL file of the folder, in the order they are listed. */
    method PlanClassification(id: string, files: seq<string>, resolutions: map<string, Resolution>, expiresAt: int)
      returns (r: Result<seq<Planned>>)
      requires Stored(folder.fs, tree, files)
      modifies this`plans
      ensures r == Plan(folder.fs, tree, files, Request(folder, resolutions), folder.sha)
      ensures Contents() == Step(folder, old(Contents()), PlanOp(id, files, resolutions, expiresAt))
    {
      hide PlanFile, Content, ResolutionFor, Pending, IdentityKey, DestinationKey, Finish, Stored, Extend,
           Identities, Destinations, PlanFirst;
      var request := Request(folder, resolutions);
      var items: seq<Planned> := [];
      var identities: set<string>, destinations: set<string> := {}, {};
      var pending := resolutions;
      PlanningStarts(folder.fs, tree, files, request, folder.sha);
      for i := 0 to |files|
        invariant plans == old(plans)
        invariant PlanFirst(folder.fs, tree, files, i, request, folder.sha) == Ok(items)
        invariant identities == Identities(items)
        invariant destinations == Destinations(items)
        invariant Pending(files, i, resolutions, pending)
      {
        var key := Casefold(files[i]);
        var resolution := if key in pending then Some(pending[key]) else None;
        ListedStored(folder.fs, tree, files, i);
        var content := Content(folder.fs, tree, files[i]);
        PendingIs(files, i, resolutions, pending);
        var planned := PlanFile(files[i], content, request, resolution, folder.sha);
        PlanFirstNext(folder.fs, tree, files, i, request, folder.sha);
        if planned.Err? {
          r := Err(planned.code);
          return;
        }
        pending := pending - {key};
        var p := planned.value;
        SeenKeys(items, p);
        if IdentityKey(p) in identities {
          r := Err(DUPLICATE_IDENTITY);
          return;
        }
        if DestinationKey(p) in destinations {
          r := Err(DESTINATION_COLLISION);
          return;
        }
        items := items + [p];
        identities := identities + {IdentityKey(p)};
        destinations := destinations + {DestinationKey(p)};
      }
      r := Finish(files, items, request);
      if r.Ok? {
        FinishKeeps(files, items, request);
        plans := plans[id := StoredPlan(Classification, RecordsOf(items, folder.sha), None, expiresAt, false)];
      }
    }

    method PlanManagedResolution(id: string, path: string, resolution: Resolution, expiresAt: int)
      returns (r: Result<Planned>)
      modifies this`plans
      ensures r == PlanResolution(folder, old(Contents()), path, resolution)
      ensures Contents() == Step(folder, old(Contents()), ResolveOp(id, path, resolution, expiresAt))
      ensures r.Err? ==> plans == old(plans)
      ensures r.Ok? ==> forall now | now < expiresAt ::
                Checked(folder, Contents(), id, now, true) == Ok([r.value.Rendered()])
    {
      hide Checked, PlanResolution, Planned.Rendered;
      r := PlanResolution(folder, Contents(), path, resolution);
      if r.Ok? {
        ghost var before := Contents();
        plans := plans[id := StoredPlan(ManagedResolution, [RecordOf(r.value, folder.sha)], manifest,
                                        expiresAt, false)];
        forall now | now < expiresAt ensures Checked(folder, Contents(), id, now, true) == Ok([r.value.Rendered()]) {
          ResolutionIsReady(folder, before, id, path, resolution, expiresAt, now);
        }
      }
    }

    /** Applies a stored plan. Every source is checked and staged before the first write, so a
        refusal leaves everything as it was. */
    method Apply(id: string, now: int, approved: bool) returns (r: Result<nat>)
      modifies this
      ensures Contents() == Step(folder, old(Contents()), ApplyOp(id, now, approved))
      ensures r == match Checked(folder, old(Contents()), id, now, approved)
                   case Err(code) => Err(code)
                   case Ok(texts) => Ok(|texts|)
    {
      hide Stage, StageText, WriteAll, UnlinkAll, NewManifest, Write, Remove, Record.Moves;
      if id !in plans {
        return Err(PLAN_NOT_FOUND);
      }
      var plan := plans[id];
      if plan.expiresAt <= now {
        return Err(PLAN_EXPIRED);
      }
      if !approved {
        return Err(APPROVAL_REQUIRED);
      }
      var records := plan.records;
      var staged: seq<string> := [];
      StagingStarts(folder, tree, records);
      for i := 0 to |records|
        invariant Contents() == old(Contents())
        invariant Stage(folder.fs, tree, records, i, folder.engine, folder.sha) == Ok(staged)
      {
        var text := StageText(folder.fs, tree, records[i], folder.engine, folder.sha);
        StageNext(folder, tree, records, i);
        if text.Err? {
          return Err(text.code);
        }
        staged := staged + [text.value];
      }
      if plan.kind == ManagedResolution && (manifest.None? || manifest != plan.manifestSeen) {
        return Err(MANIFEST_DRIFT);
      }
      var entries := NewManifest(Contents(), plan);
      AllTaken(records, staged);
      NothingApplied(folder.fs, tree);
      for i := 0 to |records|
        invariant manifest == old(manifest) && plans == old(plans)
        invariant tree == WriteAll(folder.fs, old(tree), records[..i], staged[..i])
      {
        tree := Write(folder.fs, tree, records[i].destination, staged[i]);
        WriteNext(folder.fs, old(tree), records, staged, i);
      }
      ghost var written := tree;
      NothingApplied(folder.fs, tree);
      for i := 0 to |records|
        invariant manifest == old(manifest) && plans == old(plans)
        invariant tree == UnlinkAll(folder.fs, written, records[..i])
      {
        UnlinkNext(folder.fs, written, records, i);
        if records[i].Moves() && Key(folder.fs, records[i].source) in tree {
          tree := Remove(folder.fs, tree, records[i].source);
        }
      }
      manifest := Some(entries);
      plans := plans[id := plan.(applied := true)];
      return Ok(|records|);
    }
  }

  lemma StagingStarts(folder: Folder, tree: Tree, records: seq<Record>)
    ensures Stage(folder.fs, tree, records, 0, folder.engine, folder.sha) == Ok([])
  {
  }

  lemma StageNext(folder: Folder, tree: Tree, records: seq<Record>, n: nat)
    requires n < |records| && Stage(folder.fs, tree, records, n, folder.engine, folder.sha).Ok?
    ensures var text := StageText(folder.fs, tree, records[n], folder.engine, folder.sha);
            var done := Stage(folder.fs, tree, records, n, folder.engine, folder.sha).value;
            && (text.Ok? ==>
                Stage(folder.fs, tree, records, n + 1, folder.engine, folder.sha) == Ok(done + [text.value]))
            && (text.Err? ==> Stage(folder.fs, tree, records, |records|, folder.engine, folder.sha) == Err(text.code))
  {
    hide StageText;
    if StageText(folder.fs, tree, records[n], folder.engine, folder.sha).Err? {
      StageStops(folder, tree, records, n + 1);
    }
  }

  lemma {:induction false} StageStops(folder: Folder, tree: Tree, records: seq<Record>, n: nat)
    requires n <= |records| && Stage(folder.fs, tree, records, n, folder.engine, folder.sha).Err?
    ensures Stage(folder.fs, tree, records, |records|, folder.engine, folder.sha) ==
            Stage(folder.fs, tree, records, n, folder.engine, folder.sha)
    decreases |records| - n
  {
    hide StageText;
    if n < |records| {
      StageStops(folder, tree, records, n + 1);
    }
  }

  lemma AllTaken(records: seq<Record>, texts: seq<string>)
    ensures records[..|records|] == records && texts[..|texts|] == texts
    ensures records[..0] == [] && texts[..0] == []
  {
  }

  lemma NothingApplied(fs: FileSystem, tree: Tree)
    ensures WriteAll(fs, tree, [], []) == tree && UnlinkAll(fs, tree, []) == tree
  {
  }

  lemma WriteNext(fs: FileSystem, tree: Tree, records: seq<Record>, texts: seq<string>, n: nat)
    requires n < |records| == |texts|
    ensures WriteAll(fs, tree, records[..n + 1], texts[..n + 1]) ==
            Write(fs, WriteAll(fs, tree, records[..n], texts[..n]), records[n].destination, texts[n])
  {
    hide Write;
    assert records[..n + 1][..n] == records[..n] && texts[..n + 1][..n] == texts[..n];
  }

  lemma UnlinkNext(fs: FileSystem, tree: Tree, records: seq<Record>, n: nat)
    requires n < |records|
    ensures var before := UnlinkAll(fs, tree, records[..n]);
            UnlinkAll(fs, tree, records[..n + 1]) ==
            if records[n].Moves() && Key(fs, records[n].source) in before
            then Remove(fs, before, records[n].source) else before
  {
    assert records[..n + 1][..n] == records[..n];
  }

  /** The resolutions no earlier file has used. */
  ghost predicate Pending(files: seq<string>, n: nat, resolutions: map<string, Resolution>,
                          pending: map<string, Resolution>)
    requires n <= |files|
  {
    forall key ::
      (key in pending <==> key in resolutions && forall i :: 0 <= i < n ==> Casefold(files[i]) != key) &&
      (key in pending ==> pending[key] == resolutions[key])
  }

  lemma PendingIs(files: seq<string>, n: nat, resolutions: map<string, Resolution>, pending: map<string, Resolution>)
    requires n < |files| && Pending(files, n, resolutions, pending)
    ensures var key := Casefold(files[n]);
            (if key in pending then Some(pending[key]) else None) == ResolutionFor(files, n, resolutions) &&
            Pending(files, n + 1, resolutions, pending - {key})
  {
    hide Casefold;
  }

  lemma {:induction false} PlanFirstStops(fs: FileSystem, tree: Tree, files: seq<string>, n: nat,
                                          request: PlanRequest, sha: Sha)
    requires n <= |files| && Stored(fs, tree, files) && PlanFirst(fs, tree, files, n, request, sha).Err?
    ensures PlanFirst(fs, tree, files, |files|, request, sha) == PlanFirst(fs, tree, files, n, request, sha)
    decreases |files| - n
  {
    hide PlanFile, Content, ResolutionFor, Stored;
    if n < |files| {
      PlanFirstStops(fs, tree, files, n + 1, request, sha);
    }
  }

  function Identities(items: seq<Planned>): set<string> {
    set p <- items :: IdentityKey(p)
  }

  function Destinations(items: seq<Planned>): set<string> {
    set p <- items :: DestinationKey(p)
  }

  lemma PlanningStarts(fs: FileSystem, tree: Tree, files: seq<string>, request: PlanRequest, sha: Sha)
    requires Stored(fs, tree, files)
    ensures PlanFirst(fs, tree, files, 0, request, sha) == Ok([])
    ensures Identities([]) == {} && Destinations([]) == {}
    ensures Pending(files, 0, request.resolutions, request.resolutions)
  {
  }

  lemma ListedStored(fs: FileSystem, tree: Tree, files: seq<string>, i: nat)
    requires Stored(fs, tree, files) && i < |files|
    ensures Key(fs, files[i]) in tree
  {
  }

  /** One more file planned; a file that cannot be ends the planning with its error. */
  lemma PlanFirstNext(fs: FileSystem, tree: Tree, files: seq<string>, n: nat, request: PlanRequest, sha: Sha)
    requires n < |files| && Stored(fs, tree, files) && PlanFirst(fs, tree, files, n, request, sha).Ok?
    ensures Key(fs, files[n]) in tree
    ensures var done := PlanFirst(fs, tree, files, n, request, sha).value;
            var planned := PlanFile(files[n], Content(fs, tree, files[n]), request,
                                    ResolutionFor(files, n, request.resolutions), sha);
            var next := if planned.Err? then Err(planned.code) else Extend(done, planned.value);
            && PlanFirst(fs, tree, files, n + 1, request, sha) == next
            && (next.Err? ==> Plan(fs, tree, files, request, sha) == Err(next.code))
  {
    hide PlanFile, Content, ResolutionFor, Extend;
    if PlanFirst(fs, tree, files, n + 1, request, sha).Err? {
      PlanFirstStops(fs, tree, files, n + 1, request, sha);
    }
  }

  lemma FinishKeeps(files: seq<string>, items: seq<Planned>, request: PlanRequest)
    requires Finish(files, items, request).Ok?
    ensures Finish(files, items, request) == Ok(items)
  {
    hide Casefold, HitsSource;
  }

  lemma SeenKeys(items: seq<Planned>, p: Planned)
    ensures Extend(items, p) ==
            if IdentityKey(p) in Identities(items) then Err(DUPLICATE_IDENTITY)
            else if DestinationKey(p) in Destinations(items) then Err(DESTINATION_COLLISION)
            else Ok(items + [p])
    ensures Identities(items + [p]) == Identities(items) + {IdentityKey(p)}
    ensures Destinations(items + [p]) == Destinations(items) + {DestinationKey(p)}
  {
    hide IdentityKey, DestinationKey;
  }
}
