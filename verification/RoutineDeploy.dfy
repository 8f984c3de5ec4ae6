/** Routine deployment: plan managed routines, check every planned item, then send the statements
    one by one. */
module RoutineDeploy {
  import opened Text
  import opened Declarations
  import opened RoutineNormalization
  import opened RoutineIdentity
  import opened ManagedHeader
  import FileTree

  type Sha = string -> string

  datatype Item = Item(
    relativePath: string,
    objectId: string,
    objectType: ObjectType,
    schemaName: string,
    objectName: string,
    contentHash: string,
    statementHash: string,
    databaseFingerprint: Option<string>,
    fingerprintChecked: bool)

  datatype Profile = Profile(
    name: string,
    engine: Engine,
    allowedSchemas: set<string>,
    allowedTypes: set<ObjectType>,
    routineWrite: bool)

  datatype DeploymentPlan = DeploymentPlan(
    profile: string,
    requester: string,
    stopOnError: bool,
    expiresAt: int,
    items: seq<Item>)

  // ----- Planning ------------------------------------------------------------------------

  const ENGINE_MISMATCH := "ROUTINE_ENGINE_MISMATCH"
  const ENGINE_UNSUPPORTED := "ROUTINE_APPLY_ENGINE_UNSUPPORTED"
  const FILE_NOT_FOUND := "ROUTINE_FILE_NOT_FOUND"
  const MANAGED_HEADER_REQUIRED := "ROUTINE_MANAGED_HEADER_REQUIRED"
  const OBJECT_TYPE_REQUIRED := "ROUTINE_OBJECT_TYPE_REQUIRED"
  const SCHEMA_NOT_ALLOWED := "SCHEMA_NOT_ALLOWED"
  const TYPE_NOT_ALLOWED := "OBJECT_TYPE_NOT_ALLOWED"
  const FILE_DRIFT := "ROUTINE_FILE_DRIFT"
  const IDENTITY_MISMATCH := "ROUTINE_IDENTITY_MISMATCH"
  const DUPLICATE_IDENTITY := "ROUTINE_DUPLICATE_OBJECT_IDENTITY"
  const PLAN_EMPTY := "ROUTINE_PLAN_EMPTY"

  predicate Declares(statement: string, objectType: ObjectType, schemaName: string, objectName: string) {
    match DetectIdentity(statement)
    case Err(_) => false
    case Ok(id) =>
      && id.objectType == objectType
      && Casefold(id.schemaName) == Casefold(schemaName)
      && Casefold(id.objectName) == Casefold(objectName)
  }

  /** The statement of a routine body and the identity check both services make on it. */
  function CheckedStatement(h: Header, body: string): Result<string>
    requires h.objectType != Table
  {
    match Normalize(body, h.objectType)
    case Err(code) => Err(code)
    case Ok(statement) =>
      match DetectIdentity(statement)
      case Err(code) => Err(code)
      case Ok(_) =>
        if Declares(statement, h.objectType, h.schemaName, h.objectName) then Ok(statement) else Err(IDENTITY_MISMATCH)
  }

  /** A path below the folder and the text read there, when it is a file. */
  datatype SourceFile = SourceFile(path: string, text: Option<string>)

  /** The suffix of the name is `.sql` in any case; a name that is all suffix has none. */
  predicate HasSqlSuffix(path: string) {
    |FileTree.Name(path)| > 4 && FileTree.EndsWith(Casefold(FileTree.Name(path)), ".sql")
  }

  /** One path: an item, nothing for what is no managed routine, or an error. A path that was asked for
      by name is not passed over. */
  function PlanItem(file: SourceFile, single: bool, profile: Profile, sha: Sha): Result<Option<Item>> {
    if file.text.None? || !HasSqlSuffix(file.path) then (if single then Err(FILE_NOT_FOUND) else Ok(None)) else
    var content := file.text.value;
    match Parse(content)
    case Err(_) => Err(MANAGED_HEADER_REQUIRED)
    case Ok((h, body)) =>
      if h.objectType == Table then (if single then Err(OBJECT_TYPE_REQUIRED) else Ok(None))
      else if h.schemaName !in profile.allowedSchemas then Err(SCHEMA_NOT_ALLOWED)
      else if h.objectType !in profile.allowedTypes then Err(TYPE_NOT_ALLOWED)
      else if h.contentHash != sha(body) then Err(FILE_DRIFT)
      else
        match CheckedStatement(h, body)
        case Err(code) => Err(code)
        case Ok(statement) =>
          Ok(Some(Item(file.path, h.objectId, h.objectType, h.schemaName, h.objectName, sha(content), sha(statement),
                       h.sourceFingerprint, false)))
  }

  predicate Claims(items: seq<Item>, objectId: string) {
    exists i :: 0 <= i < |items| && Casefold(items[i].objectId) == Casefold(objectId)
  }

  function PlanItems(files: seq<SourceFile>, single: bool, profile: Profile, sha: Sha): Result<seq<Item>> {
    if files == [] then Ok([]) else
    var last := files[|files| - 1];
    match PlanItems(files[..|files| - 1], single, profile, sha)
    case Err(code) => Err(code)
    case Ok(done) =>
      match PlanItem(last, single, profile, sha)
      case Err(code) => Err(code)
      case Ok(None) => Ok(done)
      case Ok(Some(item)) => if Claims(done, item.objectId) then Err(DUPLICATE_IDENTITY) else Ok(done + [item])
  }

  /** With an adapter at hand the items carry the database's present fingerprints. */
  function WithFingerprints(items: seq<Item>, current: Option<map<string, string>>): (r: seq<Item>)
    ensures |r| == |items|
  {
    match current
    case None => items
    case Some(m) =>
      seq(|items|, i requires 0 <= i < |items| =>
        items[i].(databaseFingerprint := if items[i].objectId in m then Some(m[items[i].objectId]) else None,
                  fingerprintChecked := true))
  }

  function Plan(folderEngine: Engine, files: seq<SourceFile>, single: bool, profile: Profile,
                current: Option<map<string, string>>, sha: Sha): Result<seq<Item>>
  {
    if folderEngine != profile.engine then Err(ENGINE_MISMATCH)
    else if profile.engine != SqlServer then Err(ENGINE_UNSUPPORTED) else
    match PlanItems(files, single, profile, sha)
    case Err(code) => Err(code)
    case Ok(items) => if items == [] then Err(PLAN_EMPTY) else Ok(WithFingerprints(items, current))
  }

  method PlanDeployment(folderEngine: Engine, files: seq<SourceFile>, single: bool, profile: Profile,
                        current: Option<map<string, string>>, sha: Sha)
    returns (r: Result<seq<Item>>)
    ensures r == Plan(folderEngine, files, single, profile, current, sha)
  {
    hide PlanItem, PlanItems, WithFingerprints;
    if folderEngine != profile.engine {
      return Err(ENGINE_MISMATCH);
    }
    if profile.engine != SqlServer {
      return Err(ENGINE_UNSUPPORTED);
    }
    var items: seq<Item> := [];
    var identities: set<string> := {};
    PlanningStarts(files, single, profile, sha);
    for i := 0 to |files|
      invariant PlanItems(files[..i], single, profile, sha) == Ok(items)
      invariant identities == Identities(items)
    {
      var planned := PlanItem(files[i], single, profile, sha);
      PlanningNext(files, i, single, profile, sha);
      if planned.Err? {
        return Err(planned.code);
      }
      if planned.value.Some? {
        var item := planned.value.value;
        ClaimsSeen(items, item);
        if Casefold(item.objectId) in identities {
          return Err(DUPLICATE_IDENTITY);
        }
        identities := identities + {Casefold(item.objectId)};
        items := items + [item];
      }
    }
    assert files[..|files|] == files;
    return if items == [] then Err(PLAN_EMPTY) else Ok(WithFingerprints(items, current));
  }

  function Identities(items: seq<Item>): set<string> {
    set i <- items :: Casefold(i.objectId)
  }

  lemma ClaimsSeen(items: seq<Item>, item: Item)
    ensures Casefold(item.objectId) in Identities(items) <==> Claims(items, item.objectId)
    ensures Identities(items + [item]) == Identities(items) + {Casefold(item.objectId)}
  {
  }

  lemma PlanningStarts(files: seq<SourceFile>, single: bool, profile: Profile, sha: Sha)
    ensures files[..0] == [] && PlanItems([], single, profile, sha) == Ok([]) && Identities([]) == {}
  {
  }

  lemma PlanningNext(files: seq<SourceFile>, n: nat, single: bool, profile: Profile, sha: Sha)
    requires n < |files| && PlanItems(files[..n], single, profile, sha).Ok?
    ensures var done := PlanItems(files[..n], single, profile, sha).value;
            var planned := PlanItem(files[n], single, profile, sha);
            var next := match planned
                        case Err(code) => Err(code)
                        case Ok(None) => Ok(done)
                        case Ok(Some(item)) =>
                          if Claims(done, item.objectId) then Err(DUPLICATE_IDENTITY) else Ok(done + [item]);
            && PlanItems(files[..n + 1], single, profile, sha) == next
            && (next.Err? ==> PlanItems(files, single, profile, sha) == Err(next.code))
  {
    hide PlanItem, Claims;
    assert files[..n + 1][..n] == files[..n];
    if PlanItems(files[..n + 1], single, profile, sha).Err? {
      PlanningStops(files, n + 1, single, profile, sha);
    }
  }

  lemma {:induction false} PlanningStops(files: seq<SourceFile>, n: nat, single: bool, profile: Profile, sha: Sha)
    requires n <= |files| && PlanItems(files[..n], single, profile, sha).Err?
    ensures PlanItems(files, single, profile, sha) == PlanItems(files[..n], single, profile, sha)
    decreases |files| - n
  {
    hide PlanItem, Claims;
    if n < |files| {
      assert files[..n + 1][..n] == files[..n];
      PlanningStops(files, n + 1, single, profile, sha);
    } else {
      assert files[..n] == files;
    }
  }

  // ----- Checking before the first statement ---------------------------------------------

  const PLAN_EXPIRED := "ROUTINE_PLAN_EXPIRED"
  const BINDING_MISMATCH := "ROUTINE_PLAN_BINDING_MISMATCH"
  const WRITE_SCOPE_REQUIRED := "ROUTINE_WRITE_SCOPE_REQUIRED"
  const DATABASE_DRIFT := "ROUTINE_DATABASE_DRIFT"
  const CONTENT_DRIFT := "ROUTINE_PLAN_CONTENT_DRIFT"
  const IDENTITY_DRIFT := "ROUTINE_PLAN_IDENTITY_DRIFT"
  const APPROVAL_REQUIRED := "APPROVAL_REQUIRED"

  predicate AllRoutines(items: seq<Item>) {
    forall i :: 0 <= i < |items| ==> items[i].objectType != Table
  }

  /** What an item may be run with once all its checks have passed. */
  function PrepareItem(item: Item, files: map<string, string>, sha: Sha): Result<string>
    requires item.objectType != Table
  {
    if item.relativePath !in files then Err(CONTENT_DRIFT) else
    var content := files[item.relativePath];
    if sha(content) != item.contentHash then Err(CONTENT_DRIFT) else
    match Parse(content)
    case Err(_) => Err(CONTENT_DRIFT)
    case Ok((h, body)) =>
      if h.objectType != item.objectType then Err(IDENTITY_DRIFT)
      else
        match CheckedStatement(h, body)
        case Err(code) => Err(code)
        case Ok(statement) =>
          if h.objectId != item.objectId || h.schemaName != item.schemaName || h.objectName != item.objectName
             || sha(statement) != item.statementHash
          then Err(IDENTITY_DRIFT)
          else Ok(statement)
  }

  function Prepare(items: seq<Item>, n: nat, files: map<string, string>, sha: Sha): (r: Result<seq<string>>)
    requires n <= |items| && AllRoutines(items)
    ensures r.Ok? ==> |r.value| == n
  {
    if n == 0 then Ok([]) else
    match Prepare(items, n - 1, files, sha)
    case Err(code) => Err(code)
    case Ok(done) =>
      match PrepareItem(items[n - 1], files, sha)
      case Err(code) => Err(code)
      case Ok(statement) => Ok(done + [statement])
  }

  predicate Drifted(item: Item, current: map<string, string>) {
    item.fingerprintChecked &&
    (if item.objectId in current then Some(current[item.objectId]) else None) != item.databaseFingerprint
  }

  /** Everything that can refuse a deployment, in the order it is checked. */
  function Checked(plan: DeploymentPlan, profile: Profile, caller: string, current: map<string, string>,
                   files: map<string, string>, now: int, approved: bool, sha: Sha): Result<seq<string>>
    requires AllRoutines(plan.items)
  {
    if plan.expiresAt <= now then Err(PLAN_EXPIRED)
    else if plan.requester != caller || plan.profile != profile.name then Err(BINDING_MISMATCH)
    else if profile.engine != SqlServer then Err(ENGINE_UNSUPPORTED)
    else if !profile.routineWrite then Err(WRITE_SCOPE_REQUIRED)
    else if exists i :: 0 <= i < |plan.items| && Drifted(plan.items[i], current) then Err(DATABASE_DRIFT)
    else
      match Prepare(plan.items, |plan.items|, files, sha)
      case Err(code) => Err(code)
      case Ok(statements) => if approved then Ok(statements) else Err(APPROVAL_REQUIRED)
  }

  // ----- Running -------------------------------------------------------------------------

  /** What the database answers to a statement after others were sent: an error code, or nothing
      when it accepts. */
  type Answers = (seq<string>, string) -> Option<string>

  datatype Outcome = Applied | Failed(code: string) | Skipped

  datatype Progress = Progress(results: seq<Outcome>, sent: seq<string>)

  predicate AnyFailed(results: seq<Outcome>) {
    exists i :: 0 <= i < |results| && results[i].Failed?
  }

  /** The adapter checks the scope and the type once more, and normalises the statement again before it
      sends it. */
  function Send(p: Progress, statement: string, routine: ObjectType, write: bool, answers: Answers): Progress {
    if !write then p.(results := p.results + [Failed(WRITE_SCOPE_REQUIRED)])
    else if routine == Table then p.(results := p.results + [Failed(OBJECT_TYPE_REQUIRED)]) else
    match Normalize(statement, routine)
    case Err(code) => p.(results := p.results + [Failed(code)])
    case Ok(normalized) =>
      var outcome := match answers(p.sent, normalized)
                     case None => Applied
                     case Some(code) => Failed(code);
      Progress(p.results + [outcome], p.sent + [normalized])
  }

  function Run(items: seq<Item>, statements: seq<string>, n: nat, stop: bool, answers: Answers): (p: Progress)
    requires n <= |items| == |statements| && AllRoutines(items)
    ensures |p.results| == n
  {
    if n == 0 then Progress([], []) else
    var p := Run(items, statements, n - 1, stop, answers);
    if AnyFailed(p.results) && stop then p.(results := p.results + [Skipped])
    else Send(p, statements[n - 1], items[n - 1].objectType, true, answers)
  }

  function Count(results: seq<Outcome>, f: Outcome -> bool): nat {
    if results == [] then 0
    else Count(results[..|results| - 1], f) + (if f(results[|results| - 1]) then 1 else 0)
  }

  // ----- Properties ----------------------------------------------------------------------

  lemma CheckedIsNormalized(h: Header, body: string)
    requires h.objectType != Table && CheckedStatement(h, body).Ok?
    ensures var statement := CheckedStatement(h, body).value;
            Normalize(statement, h.objectType) == Ok(statement) &&
            Declares(statement, h.objectType, h.schemaName, h.objectName)
  {
    hide Normalize, DetectIdentity, Declares;
    NormalizationIdempotent(body, h.objectType);
  }

  /** A prepared statement has the planned hash, declares the planned routine and is already in
      the form the adapter sends. */
  predicate Planned(item: Item, statement: string, sha: Sha) {
    && item.objectType != Table
    && sha(statement) == item.statementHash
    && Declares(statement, item.objectType, item.schemaName, item.objectName)
    && Normalize(statement, item.objectType) == Ok(statement)
  }

  lemma PreparedIsPlanned(item: Item, files: map<string, string>, sha: Sha)
    requires item.objectType != Table && PrepareItem(item, files, sha).Ok?
    ensures Planned(item, PrepareItem(item, files, sha).value, sha)
  {
    hide Normalize, DetectIdentity, Declares, CheckedStatement, Parse;
    var (h, body) := Parse(files[item.relativePath]).value;
    CheckedIsNormalized(h, body);
  }

  lemma {:induction false} AllPreparedArePlanned(items: seq<Item>, n: nat, files: map<string, string>, sha: Sha)
    requires n <= |items| && AllRoutines(items) && Prepare(items, n, files, sha).Ok?
    ensures var statements := Prepare(items, n, files, sha).value;
            forall i :: 0 <= i < n ==> Planned(items[i], statements[i], sha)
  {
    hide PrepareItem, Planned;
    if n > 0 {
      AllPreparedArePlanned(items, n - 1, files, sha);
      PreparedIsPlanned(items[n - 1], files, sha);
    }
  }

  /** A plan holds routines only, each claimed once. */
  lemma {:induction false} PlannedItems(files: seq<SourceFile>, single: bool, profile: Profile, sha: Sha)
    requires PlanItems(files, single, profile, sha).Ok?
    ensures var items := PlanItems(files, single, profile, sha).value;
            && AllRoutines(items)
            && (forall i, j :: 0 <= i < j < |items| ==> Casefold(items[i].objectId) != Casefold(items[j].objectId))
            && (forall i :: 0 <= i < |items| ==>
                  && items[i].schemaName in profile.allowedSchemas && items[i].objectType in profile.allowedTypes
                  && !items[i].fingerprintChecked)
  {
    hide Casefold, CheckedStatement, Parse;
    if files != [] {
      PlannedItems(files[..|files| - 1], single, profile, sha);
    }
  }

  /** Where the run stopped sending: everything before is tried, everything after is skipped. */
  predicate StopsAt(results: seq<Outcome>, m: nat) {
    && m <= |results|
    && (forall i :: 0 <= i < |results| ==> (results[i].Skipped? <==> m <= i))
  }

  /** The result of a statement that the database was sent. */
  predicate IsAnswer(outcome: Outcome, answer: Option<string>) {
    match answer
    case None => outcome == Applied
    case Some(code) => outcome == Failed(code)
  }

  /** What is sent is exactly a leading part of the prepared statements. It is all of them without
      stop-on-error; with it, everything before the last one sent was applied, and only a failure
      of that one ends the sending. */
  lemma {:induction false} RunOutcome(items: seq<Item>, statements: seq<string>, n: nat, stop: bool, answers: Answers,
                                      sha: Sha)
    returns (m: nat)
    requires n <= |items| == |statements| && AllRoutines(items)
    requires forall i :: 0 <= i < |items| ==> Planned(items[i], statements[i], sha)
    ensures var p := Run(items, statements, n, stop, answers);
            && StopsAt(p.results, m) && m <= n
            && p.sent == statements[..m]
            && (forall i :: 0 <= i < m ==> IsAnswer(p.results[i], answers(statements[..i], statements[i])))
            && (!stop ==> m == n)
            && (stop ==> (forall i :: 0 <= i < m - 1 ==> p.results[i] == Applied))
            && (m < n ==> m > 0 && p.results[m - 1].Failed?)
  {
    hide Normalize, Declares, Run;
    RunUnfold(items, statements, n, stop, answers);
    if n == 0 {
      m := 0;
    } else {
      m := RunOutcome(items, statements, n - 1, stop, answers, sha);
      var p := Run(items, statements, n - 1, stop, answers);
      assert Planned(items[n - 1], statements[n - 1], sha);
      if m == n - 1 && !(AnyFailed(p.results) && stop) {
        assert statements[..n] == statements[..n - 1] + [statements[n - 1]];
        if stop {
          assert forall i :: 0 <= i < n - 1 ==> !p.results[i].Failed?;
        }
        m := n;
      } else if m < n - 1 {
        assert AnyFailed(p.results);
      } else {
        var i :| 0 <= i < |p.results| && p.results[i].Failed?;
        assert i == n - 2;
      }
    }
  }

  lemma RunUnfold(items: seq<Item>, statements: seq<string>, n: nat, stop: bool, answers: Answers)
    requires n <= |items| == |statements| && AllRoutines(items)
    ensures Run(items, statements, n, stop, answers) ==
            if n == 0 then Progress([], []) else
            var p := Run(items, statements, n - 1, stop, answers);
            if AnyFailed(p.results) && stop then p.(results := p.results + [Skipped])
            else Send(p, statements[n - 1], items[n - 1].objectType, true, answers)
  {
  }

  /** Applied, failed and skipped account for every planned item. */
  lemma {:induction false} CountsSum(results: seq<Outcome>)
    ensures Count(results, (o: Outcome) => o.Applied?) + Count(results, (o: Outcome) => o.Failed?)
            + Count(results, (o: Outcome) => o.Skipped?) == |results|
  {
    if results != [] {
      CountsSum(results[..|results| - 1]);
    }
  }

  /** A deployment that passes its checks sends, in plan order, statements with exactly the planned
      hashes, each declaring the planned routine; with stop-on-error the statuses read applied,
      then at most one failed, then skipped. */
  lemma DeploymentOutcome(plan: DeploymentPlan, profile: Profile, caller: string, current: map<string, string>,
                          files: map<string, string>, now: int, approved: bool, answers: Answers, sha: Sha)
    returns (m: nat)
    requires AllRoutines(plan.items) && Checked(plan, profile, caller, current, files, now, approved, sha).Ok?
    ensures approved && plan.expiresAt > now && profile.routineWrite
    ensures var statements := Checked(plan, profile, caller, current, files, now, approved, sha).value;
            |statements| == |plan.items| &&
            var p := Run(plan.items, statements, |plan.items|, plan.stopOnError, answers);
            && m <= |plan.items| && StopsAt(p.results, m) && p.sent == statements[..m]
            && (forall i :: 0 <= i < m ==> IsAnswer(p.results[i], answers(statements[..i], statements[i])))
            && (forall k :: 0 <= k < |p.sent| ==>
                  && sha(p.sent[k]) == plan.items[k].statementHash
                  && Declares(p.sent[k], plan.items[k].objectType, plan.items[k].schemaName, plan.items[k].objectName))
            && (m < |plan.items| ==> plan.stopOnError && m > 0 && p.results[m - 1].Failed?)
            && (plan.stopOnError ==> forall i :: 0 <= i < m - 1 ==> p.results[i] == Applied)
  {
    hide Prepare, Run, Normalize, Declares, Drifted;
    var n := |plan.items|;
    var statements := Prepare(plan.items, n, files, sha).value;
    AllPreparedArePlanned(plan.items, n, files, sha);
    m := RunOutcome(plan.items, statements, n, plan.stopOnError, answers, sha);
  }

  /** The places of the results of one kind. */
  function Places(results: seq<Outcome>, f: Outcome -> bool): set<nat> {
    set i: nat | i < |results| && f(results[i])
  }

  lemma {:induction false} CountIsPlaces(results: seq<Outcome>, f: Outcome -> bool)
    ensures Count(results, f) == |Places(results, f)|
  {
    if results != [] {
      var n := |results| - 1;
      CountIsPlaces(results[..n], f);
      var before := Places(results[..n], f);
      assert Places(results, f) == if f(results[n]) then before + {n} else before;
    }
  }

  // ----- What is checked -----------------------------------------------------------------

  /** The database holds exactly the recorded fingerprint of the object, or knows no more of it than was
      recorded. */
  predicate Recorded(item: Item, current: map<string, string>) {
    if item.objectId in current then item.databaseFingerprint == Some(current[item.objectId])
    else item.databaseFingerprint == None
  }

  /** The planned file is there with the planned text; its header names the planned object, and the routine
      below it is the planned statement and declares that object. */
  predicate Stands(item: Item, files: map<string, string>, sha: Sha)
    requires item.objectType != Table
  {
    && item.relativePath in files && sha(files[item.relativePath]) == item.contentHash
    && Parse(files[item.relativePath]).Ok?
    && var (h, body) := Parse(files[item.relativePath]).value;
       && h.objectId == item.objectId && h.objectType == item.objectType
       && h.schemaName == item.schemaName && h.objectName == item.objectName
       && Normalize(body, item.objectType).Ok?
       && var statement := Normalize(body, item.objectType).value;
          sha(statement) == item.statementHash && DeclaresOne(statement, item)
  }

  /** The one object that the statement declares is that of the item, up to case. */
  predicate DeclaresOne(statement: string, item: Item) {
    && |DeclaredIn(statement)| == 1
    && var id := DeclaredIn(statement)[0];
       && id.objectType == item.objectType
       && Casefold(id.schemaName) == Casefold(item.schemaName)
       && Casefold(id.objectName) == Casefold(item.objectName)
  }

  lemma PreparedStands(item: Item, files: map<string, string>, sha: Sha)
    requires item.objectType != Table
    ensures PrepareItem(item, files, sha).Ok? <==> Stands(item, files, sha)
    ensures Stands(item, files, sha) ==>
              PrepareItem(item, files, sha) == Normalize(Parse(files[item.relativePath]).value.1, item.objectType)
  {
    hide Parse, Normalize, DeclaredIn, Casefold;
  }

  lemma DriftedIsNotRecorded(item: Item, current: map<string, string>)
    ensures Drifted(item, current) <==> item.fingerprintChecked && !Recorded(item, current)
  {
  }

  predicate FirstStand(items: seq<Item>, n: nat, files: map<string, string>, sha: Sha)
    requires n <= |items| && AllRoutines(items)
  {
    forall i :: 0 <= i < n ==> Stands(items[i], files, sha)
  }

  lemma FirstStandNext(items: seq<Item>, n: nat, files: map<string, string>, sha: Sha)
    requires n <= |items| && AllRoutines(items)
    ensures n == 0 ==> FirstStand(items, n, files, sha)
    ensures n > 0 ==>
              (FirstStand(items, n, files, sha) <==>
               FirstStand(items, n - 1, files, sha) && Stands(items[n - 1], files, sha))
  {
    hide Stands;
  }

  lemma PrepareUnfold(items: seq<Item>, n: nat, files: map<string, string>, sha: Sha)
    requires n <= |items| && AllRoutines(items)
    ensures n == 0 ==> Prepare(items, n, files, sha).Ok?
    ensures n > 0 ==>
              (Prepare(items, n, files, sha).Ok? <==>
               Prepare(items, n - 1, files, sha).Ok? && Stands(items[n - 1], files, sha))
  {
    hide PrepareItem, Stands;
    if n > 0 {
      PreparedStands(items[n - 1], files, sha);
    }
  }

  lemma {:induction false} AllPreparedStand(items: seq<Item>, n: nat, files: map<string, string>, sha: Sha)
    requires n <= |items| && AllRoutines(items)
    ensures Prepare(items, n, files, sha).Ok? <==> FirstStand(items, n, files, sha)
  {
    hide *;
    PrepareUnfold(items, n, files, sha);
    FirstStandNext(items, n, files, sha);
    if n > 0 {
      AllPreparedStand(items, n - 1, files, sha);
    }
  }

  /** A deployment passes its checks exactly when it is in time, asked for by the plan's requester under the
      plan's profile, on SQL Server, with the write scope and approved, no checked object has changed in the
      database, and every planned file stands. The first of these that fails decides the error, and approval
      comes last. */
  lemma CheckedExactly(plan: DeploymentPlan, profile: Profile, caller: string, current: map<string, string>,
                       files: map<string, string>, now: int, approved: bool, sha: Sha)
    requires AllRoutines(plan.items)
    ensures Checked(plan, profile, caller, current, files, now, approved, sha).Ok? <==>
            && now < plan.expiresAt && plan.requester == caller && plan.profile == profile.name
            && profile.engine == SqlServer && profile.routineWrite && approved
            && (forall i :: 0 <= i < |plan.items| && plan.items[i].fingerprintChecked ==>
                  Recorded(plan.items[i], current))
            && FirstStand(plan.items, |plan.items|, files, sha)
    ensures var checked := Checked(plan, profile, caller, current, files, now, approved, sha);
            checked.Err? ==>
              if plan.expiresAt <= now then checked.code == PLAN_EXPIRED
              else if plan.requester != caller || plan.profile != profile.name then checked.code == BINDING_MISMATCH
              else if profile.engine != SqlServer then checked.code == ENGINE_UNSUPPORTED
              else if !profile.routineWrite then checked.code == WRITE_SCOPE_REQUIRED
              else if exists i :: 0 <= i < |plan.items| && plan.items[i].fingerprintChecked
                               && !Recorded(plan.items[i], current) then checked.code == DATABASE_DRIFT
              else FirstStand(plan.items, |plan.items|, files, sha) ==> checked.code == APPROVAL_REQUIRED
  {
    hide Prepare, PrepareItem, FirstStand, Drifted, Recorded;
    forall i | 0 <= i < |plan.items|
      ensures Drifted(plan.items[i], current) <==>
                plan.items[i].fingerprintChecked && !Recorded(plan.items[i], current)
    {
      DriftedIsNotRecorded(plan.items[i], current);
    }
    AllPreparedStand(plan.items, |plan.items|, files, sha);
  }

  /** What an item records of the file it was planned from. */
  predicate ItemOf(item: Item, file: SourceFile, profile: Profile, sha: Sha) {
    && file.text.Some? && HasSqlSuffix(file.path) && Parse(file.text.value).Ok?
    && var (h, body) := Parse(file.text.value).value;
       && item.relativePath == file.path && item.contentHash == sha(file.text.value)
       && item.objectId == h.objectId && item.objectType == h.objectType != Table
       && item.schemaName == h.schemaName && item.objectName == h.objectName
       && item.databaseFingerprint == h.sourceFingerprint && !item.fingerprintChecked
       && h.schemaName in profile.allowedSchemas && h.objectType in profile.allowedTypes
       && h.contentHash == sha(body)
       && Normalize(body, h.objectType).Ok?
       && var statement := Normalize(body, h.objectType).value;
          item.statementHash == sha(statement) && DeclaresOne(statement, item)
  }

  /** A file gives an item exactly when it is a managed routine that the profile allows, whose header speaks
      for its body and whose normal form declares it; the item then records the file, and nothing else. */
  lemma PlannedFromFile(file: SourceFile, single: bool, profile: Profile, sha: Sha, item: Item)
    ensures PlanItem(file, single, profile, sha) == Ok(Some(item)) <==> ItemOf(item, file, profile, sha)
  {
    hide Parse, Normalize, DeclaredIn, Casefold, HasSqlSuffix;
  }

  // ----- An untouched plan can be deployed -----------------------------------------------

  /** The item was planned from this file, and the folder still holds it. */
  predicate FromFile(item: Item, file: SourceFile, profile: Profile, single: bool, sha: Sha, files: map<string, string>)
  {
    && PlanItem(file, single, profile, sha) == Ok(Some(item))
    && file.text.Some? && file.path in files && files[file.path] == file.text.value
  }

  /** What planning accepted in a file, preparing accepts again, with the planned statement. */
  lemma PlannedIsPrepared(item: Item, file: SourceFile, profile: Profile, single: bool, sha: Sha,
                          files: map<string, string>)
    requires FromFile(item, file, profile, single, sha, files)
    ensures item.objectType != Table && PrepareItem(item, files, sha).Ok?
    ensures sha(PrepareItem(item, files, sha).value) == item.statementHash
  {
    hide Parse, CheckedStatement, HasSqlSuffix;
  }

  /** Every file of the plan is as it was. */
  predicate Untouched(sources: seq<SourceFile>, files: map<string, string>) {
    forall i :: 0 <= i < |sources| && sources[i].text.Some? ==>
      sources[i].path in files && files[sources[i].path] == sources[i].text.value
  }

  predicate AllPreparable(items: seq<Item>, files: map<string, string>, sha: Sha) {
    forall i :: 0 <= i < |items| ==> items[i].objectType != Table && PrepareItem(items[i], files, sha).Ok?
  }

  lemma {:induction false} PlannedArePreparable(sources: seq<SourceFile>, single: bool, profile: Profile, sha: Sha,
                                                files: map<string, string>)
    requires PlanItems(sources, single, profile, sha).Ok? && Untouched(sources, files)
    ensures AllPreparable(PlanItems(sources, single, profile, sha).value, files, sha)
  {
    hide PlanItem, PrepareItem, Claims;
    if sources != [] {
      var n := |sources| - 1;
      PlannedArePreparable(sources[..n], single, profile, sha, files);
      var planned := PlanItem(sources[n], single, profile, sha);
      if planned.value.Some? {
        ItemHasText(sources[n], single, profile, sha);
        PlannedIsPrepared(planned.value.value, sources[n], profile, single, sha, files);
      }
    }
  }

  lemma ItemHasText(file: SourceFile, single: bool, profile: Profile, sha: Sha)
    requires PlanItem(file, single, profile, sha).Ok? && PlanItem(file, single, profile, sha).value.Some?
    ensures file.text.Some?
  {
    hide Parse, CheckedStatement, HasSqlSuffix;
  }

  lemma {:induction false} PreparableIsPrepared(items: seq<Item>, n: nat, files: map<string, string>, sha: Sha)
    requires n <= |items| && AllRoutines(items) && AllPreparable(items, files, sha)
    ensures Prepare(items, n, files, sha).Ok?
  {
    hide PrepareItem;
    if n > 0 {
      PreparableIsPrepared(items, n - 1, files, sha);
    }
  }

  lemma FingerprintsKeep(items: seq<Item>, current: Option<map<string, string>>, files: map<string, string>, sha: Sha)
    requires AllPreparable(items, files, sha)
    ensures AllPreparable(WithFingerprints(items, current), files, sha)
  {
    hide Parse, CheckedStatement;
  }

  /** A plan whose files are as they were when it was made, and the database too if it was asked then,
      passes every check of the deployment: in time, by its requester, under a profile of that name that may
      write, and approved. */
  lemma PlanIsDeployable(sources: seq<SourceFile>, single: bool, profile: Profile, seen: Option<map<string, string>>,
                         current: map<string, string>, sha: Sha, plan: DeploymentPlan, caller: string,
                         files: map<string, string>, now: int)
    requires Plan(SqlServer, sources, single, profile, seen, sha) == Ok(plan.items)
    requires seen == None || seen == Some(current)
    requires plan.profile == profile.name && plan.requester == caller && now < plan.expiresAt && profile.routineWrite
    requires Untouched(sources, files)
    ensures AllRoutines(plan.items)
    ensures Checked(plan, profile, caller, current, files, now, true, sha).Ok?
  {
    hide PlanItem, PrepareItem, PlanItems, Prepare, Untouched, WithFingerprints;
    var items := PlanItems(sources, single, profile, sha).value;
    PlannedArePreparable(sources, single, profile, sha, files);
    PlannedItems(sources, single, profile, sha);
    FingerprintsKeep(items, seen, files, sha);
    PreparableIsPrepared(plan.items, |plan.items|, files, sha);
    NoneDrifted(items, current);
    assert seen == None ==> plan.items == items by {
      NotAsked(items);
    }
  }

  lemma NotAsked(items: seq<Item>)
    ensures WithFingerprints(items, None) == items
  {
  }

  lemma NoneDrifted(items: seq<Item>, current: map<string, string>)
    ensures forall i :: 0 <= i < |items| ==> !Drifted(WithFingerprints(items, Some(current))[i], current)
  {
  }

  // ----- The service ---------------------------------------------------------------------

  class Database {
    const answers: Answers
    var sent: seq<string>

    constructor (answers: Answers)
      ensures this.answers == answers && sent == []
    {
      this.answers, sent := answers, [];
    }

    method Execute(statement: string) returns (error: Option<string>)
      modifies this
      ensures sent == old(sent) + [statement] && error == answers(old(sent), statement)
    {
      error := answers(sent, statement);
      sent := sent + [statement];
    }

    /** Refuses a profile without the write scope and a type that is no routine; otherwise normalises the
        statement once more and sends it. */
    method ApplyRoutineStatement(profile: Profile, statement: string, routine: ObjectType) returns (outcome: Outcome)
      modifies this
      ensures var p := Send(Progress([], old(sent)), statement, routine, profile.routineWrite, answers);
              sent == p.sent && p.results == [outcome]
    {
      hide Normalize;
      if !profile.routineWrite {
        return Failed(WRITE_SCOPE_REQUIRED);
      }
      if routine == Table {
        return Failed(OBJECT_TYPE_REQUIRED);
      }
      var normalized := Normalize(statement, routine);
      if normalized.Err? {
        return Failed(normalized.code);
      }
      var error := Execute(normalized.value);
      outcome := if error.None? then Applied else Failed(error.value);
    }
  }

  /** The answers of a database that has been sent `before` already. */
  function After(answers: Answers, before: seq<string>): Answers {
    (sent: seq<string>, statement: string) => answers(before + sent, statement)
  }

  /** Nothing is sent unless every check of every item passes. */
  method ApplyDeployment(db: Database, plan: DeploymentPlan, profile: Profile, caller: string,
                         current: map<string, string>, files: map<string, string>, now: int, approved: bool, sha: Sha)
    returns (r: Result<seq<Outcome>>, applied: nat, failed: nat, skipped: nat)
    requires AllRoutines(plan.items)
    modifies db
    ensures var checked := Checked(plan, profile, caller, current, files, now, approved, sha);
            match checked
            case Err(code) => r == Err(code) && db.sent == old(db.sent)
            case Ok(statements) =>
              && |statements| == |plan.items|
              && var p := Run(plan.items, statements, |plan.items|, plan.stopOnError, After(db.answers, old(db.sent)));
                 r == Ok(p.results) && db.sent == old(db.sent) + p.sent
    ensures r.Ok? ==>
              && applied == |Places(r.value, (o: Outcome) => o.Applied?)|
              && failed == |Places(r.value, (o: Outcome) => o.Failed?)|
              && skipped == |Places(r.value, (o: Outcome) => o.Skipped?)|
              && applied + failed + skipped == |plan.items|
  {
    hide Prepare, PrepareItem, Run, Send, Count, AnyFailed, Drifted, Places;
    applied, failed, skipped := 0, 0, 0;
    if plan.expiresAt <= now {
      r := Err(PLAN_EXPIRED);
      return;
    }
    if plan.requester != caller || plan.profile != profile.name {
      r := Err(BINDING_MISMATCH);
      return;
    }
    if profile.engine != SqlServer {
      r := Err(ENGINE_UNSUPPORTED);
      return;
    }
    if !profile.routineWrite {
      r := Err(WRITE_SCOPE_REQUIRED);
      return;
    }
    if exists i :: 0 <= i < |plan.items| && Drifted(plan.items[i], current) {
      r := Err(DATABASE_DRIFT);
      return;
    }
    var items := plan.items;
    var prepared: seq<string> := [];
    PreparingStarts(items, files, sha);
    for i := 0 to |items|
      invariant Prepare(items, i, files, sha) == Ok(prepared)
      invariant db.sent == old(db.sent)
    {
      var statement := PrepareItem(items[i], files, sha);
      PreparingNext(items, i, files, sha);
      if statement.Err? {
        r := Err(statement.code);
        return;
      }
      prepared := prepared + [statement.value];
    }
    if !approved {
      r := Err(APPROVAL_REQUIRED);
      return;
    }
    var results: seq<Outcome> := [];
    var anyFailed := false;
    ghost var answers := After(db.answers, db.sent);
    RunUnfold(items, prepared, 0, plan.stopOnError, answers);
    NothingFailed();
    for i := 0 to |items|
      invariant Run(items, prepared, i, plan.stopOnError, answers).results == results
      invariant db.sent == old(db.sent) + Run(items, prepared, i, plan.stopOnError, answers).sent
      invariant anyFailed == AnyFailed(results)
    {
      RunUnfold(items, prepared, i + 1, plan.stopOnError, answers);
      var outcome := Skipped;
      if !(anyFailed && plan.stopOnError) {
        SendShifted(Run(items, prepared, i, plan.stopOnError, answers), old(db.sent), prepared[i],
                    items[i].objectType, db.answers);
        outcome := db.ApplyRoutineStatement(profile, prepared[i], items[i].objectType);
      }
      FailedAfter(results, outcome);
      anyFailed := anyFailed || outcome.Failed?;
      results := results + [outcome];
    }
    r := Ok(results);
    applied := Count(results, (o: Outcome) => o.Applied?);
    failed := Count(results, (o: Outcome) => o.Failed?);
    skipped := Count(results, (o: Outcome) => o.Skipped?);
    CountsSum(results);
    CountIsPlaces(results, (o: Outcome) => o.Applied?);
    CountIsPlaces(results, (o: Outcome) => o.Failed?);
    CountIsPlaces(results, (o: Outcome) => o.Skipped?);
  }

  lemma NothingFailed()
    ensures !AnyFailed([])
  {
  }

  lemma FailedAfter(results: seq<Outcome>, outcome: Outcome)
    ensures AnyFailed(results + [outcome]) <==> AnyFailed(results) || outcome.Failed?
  {
    if AnyFailed(results) {
      var i :| 0 <= i < |results| && results[i].Failed?;
      assert (results + [outcome])[i].Failed?;
    }
    if outcome.Failed? {
      assert (results + [outcome])[|results|].Failed?;
    }
  }

  /** Sending through the database and sending in the model agree. */
  lemma SendShifted(p: Progress, before: seq<string>, statement: string, routine: ObjectType, answers: Answers)
    requires routine != Table
    ensures var inModel := Send(p, statement, routine, true, After(answers, before));
            var inDatabase := Send(Progress([], before + p.sent), statement, routine, true, answers);
            && inModel.results == p.results + inDatabase.results
            && before + inModel.sent == inDatabase.sent
            && |inDatabase.results| == 1
  {
    hide Normalize;
    var normalized := Normalize(statement, routine);
    if normalized.Ok? {
      Associate(before, p.sent, [normalized.value]);
    }
  }

  lemma PreparingStarts(items: seq<Item>, files: map<string, string>, sha: Sha)
    requires AllRoutines(items)
    ensures Prepare(items, 0, files, sha) == Ok([])
  {
  }

  lemma PreparingNext(items: seq<Item>, n: nat, files: map<string, string>, sha: Sha)
    requires n < |items| && AllRoutines(items) && Prepare(items, n, files, sha).Ok?
    ensures var statement := PrepareItem(items[n], files, sha);
            var done := Prepare(items, n, files, sha).value;
            && (statement.Ok? ==> Prepare(items, n + 1, files, sha) == Ok(done + [statement.value]))
            && (statement.Err? ==> Prepare(items, |items|, files, sha) == Err(statement.code))
  {
    hide PrepareItem;
    if PrepareItem(items[n], files, sha).Err? {
      PreparingStops(items, n + 1, files, sha);
    }
  }

  lemma {:induction false} PreparingStops(items: seq<Item>, n: nat, files: map<string, string>, sha: Sha)
    requires n <= |items| && AllRoutines(items) && Prepare(items, n, files, sha).Err?
    ensures Prepare(items, |items|, files, sha) == Prepare(items, n, files, sha)
    decreases |items| - n
  {
    hide PrepareItem;
    if n < |items| {
      PreparingStops(items, n + 1, files, sha);
    }
  }
}
