# A verified model of sqlctx

sqlctx inventories database objects, keeps their SQL in managed folders, redeploys routines, exports
bundles for AI use, and protects personal data on the way. This project models the parts of it that
decide what happens to files, rows, database objects and values, and proves what they guarantee over
every input, every run and every interruption. `dafny verify dfyconfig.toml` checks the whole project.

**The SQL text layer** (`DeclarationLexer`, `SurfaceLaws`, `SurfaceForms`, `Declarations`,
`DeclarationNames`, `WrittenNames`, `RoutineNormalization`, `RoutineIdentity`, `RoutineForms`, `Json`,
`ManagedHeader`). A six-state lexer hides literals and
comments; a pattern finds declarations on what is left; a second comment skipper and a rewriter bring
routines into normal form; a header line of JSON is printed above each managed file and parsed back. The
loop of the lexer is proved equal to a token-level reading with nested comments, and the four pieces are
shown to agree.

**Managed folders** (`CategoryRules`, `FileTree`, `FolderPlanning`, `FolderApply`, `FolderFixpoint`,
`FolderCaseVariants`, `FolderCrowdedPlan`, `ManagedFolder`). Reading, classifying, planning and applying over
a file tree that is or is not case-sensitive. The end points are the fixed point of planning and the manifest
invariant over all runs.

**Routine deployment** (`RoutineDeploy`, `DeploymentPlans`), **catalog extraction** (`CatalogPhaseTwo`, with
the redaction of definitions in `SecretRedaction` and `RedactionForms`), **the context index** (`ContextIndex`,
`ContextIndexLaws`) and **bundle assembly** (`ExportPaths`, `Assembly`, `AssemblyLaws`, `BundleValidation`,
`AssembledOutput`) are state machines: each class method is proved equal to a step function, and the theorems
are about that function over all runs.

**Protection and smaller cores**: aliases (`Crockford`, `AliasRegistry`), span replacement (`Splicing`,
`TextScan`, `QueryLiterals`), digit fakes (`DigitFakes`), approvals (`Approvals`), the bounded query loop
(`Markdown`, `BoundedQuery`) and cursors (`Pagination`).

Hashes are functions given as parameters. No theorem assumes that a hash never collides in general; where
a collision would matter the statement says among which values there must be none. The clock, the drawn
identifiers, the driver's batches, the database's answers, the matches of personal-data patterns and the
slices of the SQL parser are parameters too, and the theorems hold for every choice of them. Each service
method is one step.

## What the proofs found

- In-place apply can remove a file it has just written. Sources are compared by case folding, so on a
  case-sensitive file system a file that moves away and a file that is respelled to its path pass the checks
  of `src/sqlctx/managed_files/service.py:272-286`, and the unlink pass then hits the new file
  (`FolderCaseVariants.CaseVariantIsOvertaken`). This is the only way to lose one
  (`FolderApply.PlanLosesNothing`).
- Planning is not always at rest after one apply: a file respelled in case only keeps its old copy on a
  case-sensitive file system. That is the only exception (`FolderFixpoint.PlanningReachesFixedPoint`).
- A plan with an object that more than 64 categories claim can be made and stored, but never applied: its
  header does not pass the check of `src/sqlctx/managed_files/service.py:492`
  (`FolderApply.StagedFromPlan`, `ManagedFolder.InvalidPlanNeverApplies`, `FolderCrowdedPlan.CrowdedPlan`).
- A catalog job interrupted between its final record and its snapshot, in a run that ended with warnings,
  can never be selected again (`CatalogPhaseTwo.CrashIsResumable`). Resuming can also turn a run with
  warnings into a ready one (`CatalogPhaseTwo.ResumeCanDropWarning`), namely when completed checkpoints hide
  everything that reads incompletely (`CatalogPhaseTwo.ResumedStatus`).
- A table definition carried over from an earlier catalog is redacted once more, and redacting twice is not
  redacting once (`SecretRedaction.CarriedDefinitionDrifts`). Carried checkpoints are as good as new ones
  exactly when no carried definition would change (`CatalogPhaseTwo.CarriedIsFaithful`).
- A batch that lists a file under a path that is not normalised assembles, but the result is then refused
  by the inventory check, as is any profile other than `ai` and `full`
  (`AssembledOutput.AssembledIsAccepted`, `AssembledOutput.SpelledIsRefused`).
- A value asked for under two classes loses its first alias, which another value can then be given
  (`AliasRegistry.ForgottenAliasIsReused`); under one class each this cannot happen
  (`AliasRegistry.OneClassCorresponds`).
- The size reserved for late markers forgets the space before each, so an answer can exceed its bound
  (`BoundedQuery.BoundIsReached`), but only below a header with too few marked columns: every answer keeps the
  bound exactly when 14 bytes for each unmarked column are within 13 for each column
  (`BoundedQuery.EveryAnswerFitsExactly`).
- The Thai check digit cannot see the third digit, whose weight is 11 (`DigitFakes.OneDigitErrors`).

## Model

| member | source | states |
|---|---|---|
| `DeclarationLexer.DeclarationSurface` | src/sqlctx/managed_files/service.py:79-147 | The six-state character loop computes the token-level surface (literals and nested comments hidden, bracketed names kept), and it ends in its normal state exactly when every token is closed. |
| `DeclarationLexer.DepthIsNesting` | src/sqlctx/managed_files/service.py:134-145 | The loop's block-comment depth counter is the recursive nesting of comments, for every text and every depth. |
| `SurfaceLaws.KeepsShape` | src/sqlctx/managed_files/service.py:79-147 | Every character is kept or becomes a space and newlines stay where they are, so offsets and line numbers survive. |
| `SurfaceLaws.Compositional` | src/sqlctx/managed_files/service.py:79-147 | At a cut where the state is normal and no two-character token is split, the surface of a concatenation is the concatenation of the surfaces. |
| `SurfaceLaws.CutIsBoundary` | src/sqlctx/managed_files/service.py:79-147 | Those two conditions are exactly what makes a cut fall between two tokens. |
| `SurfaceLaws.Idempotent` | src/sqlctx/managed_files/service.py:79-147 | Lexing a surface changes nothing: hiding text neither leaves nor creates an opener. |
| `SurfaceForms.LiteralIsHidden` | src/sqlctx/managed_files/service.py:79-147 | A literal in single or double quotes, its quotes doubled inside, is hidden as a whole whatever it holds, and nothing behind it is. |
| `SurfaceForms.LineCommentIsHidden` | src/sqlctx/managed_files/service.py:79-147 | A line comment is hidden up to its line break. |
| `SurfaceForms.CommentIsHidden` | src/sqlctx/managed_files/service.py:79-147 | A block comment is hidden up to its own end, not up to that of a comment inside it. |
| `DeclarationNames.BracketedRoutineIsFound` | src/sqlctx/managed_files/service.py:33-76 | After any comments and blanks, a routine declaration in any spelling of its verb and noun is found under the names written in brackets, whatever brackets, quotes or comment marks those hold; what follows is searched on its own. |
| `DeclarationNames.BracketedTableIsFound` | src/sqlctx/managed_files/service.py:33-76 | The same of `CREATE TABLE`. |
| `DeclarationNames.TableIsIdentified` | src/sqlctx/managed_files/service.py:57-76 | A table's file is identified exactly when nothing after its name declares another object; otherwise the count error is raised. |
| `DeclarationNames.BracketEndOf` | src/sqlctx/managed_files/service.py:33-33 | The identifier pattern and the lexer close a bracketed name at the same character, with doubled brackets inside. |
| `WrittenNames.DeclarationIsFound` | src/sqlctx/managed_files/service.py:33-76 | A declaration of a table, procedure or function, in any spelling of its verb and noun and behind any comments and blanks, is found under exactly the names written in it: bare (a letter or `_`, then letters, digits, `_`, `$`, `#`, `@`) or in brackets, two of them with blanks around the dot or one under `dbo`; what follows is searched on its own. |
| `WrittenNames.DeclarationIsIdentified` | src/sqlctx/managed_files/service.py:57-76 | So its file is identified under those names exactly when nothing behind them declares another object; otherwise the count error is raised. |
| `WrittenNames.NothingIsDeclared` | src/sqlctx/managed_files/service.py:33-76 | A text with neither verb outside its quotes and comments declares nothing. |
| `RoutineNormalization.DeclarationOffset` | src/sqlctx/adapters/sqlserver/adapter.py:36-70 | The second comment skipper (byte-order mark, blanks, line and nested block comments) stops where the recursive reading of leading trivia stops. |
| `RoutineNormalization.FindNewline` | src/sqlctx/adapters/sqlserver/adapter.py:51-54 | The newline search of a line comment finds the end of the lexer's line-comment token, or reports none. |
| `RoutineIdentity.TriviaIsLexed` | src/sqlctx/adapters/sqlserver/adapter.py:36-70 | Where the skipper stops, the lexer is back in its normal state and has hidden everything before; this depends on the skipped prefix alone. |
| `RoutineForms.LeadingIsNormalized` | src/sqlctx/adapters/sqlserver/adapter.py:36-84 | A definition that opens with a declaration of the routine asked for, in any spelling and behind any byte-order mark, blanks and nested comments, is normalised: its head becomes the canonical one and every other character stays. |
| `RoutineForms.OtherIsRefused` | src/sqlctx/adapters/sqlserver/adapter.py:73-84 | A definition with neither verb where its blanks and comments end is refused with the routine's own error. |
| `RoutineIdentity.NormalizationKeepsIdentity` | src/sqlctx/adapters/sqlserver/adapter.py:73-84 | Whenever normalisation succeeds the rewritten routine declares the same objects, in number, type, schema and name, as the original. |
| `RoutineIdentity.NormalizationIdempotent` | src/sqlctx/adapters/sqlserver/adapter.py:391-411 | Normalising a normalised routine succeeds and changes nothing. |
| `Json.LoadDump` | src/sqlctx/exporting/header.py:67-86 | Loading a dumped JSON value gives it back, for every value, every string content and every nesting; the dump holds no raw control character (section 7 of RFC 8259). |
| `Json.LoadExactly` | src/sqlctx/exporting/header.py:77-86 | A dumped value loads with blanks around it, and is refused with anything else behind it. |
| `ManagedHeader.MembersRoundTrip` | src/sqlctx/exporting/header.py:18-64 | A header is recovered from its members exactly when it satisfies the validator. |
| `ManagedHeader.HeaderRoundTrip` | src/sqlctx/exporting/header.py:67-86 | Parsing a rendered file returns exactly the header and body, for every body, precisely when the header is valid; otherwise the header error. |
| `ManagedHeader.ParsedIsStable` | src/sqlctx/exporting/header.py:77-86 | What is parsed is valid, and rendering it again parses to the same. |
| `ManagedHeader.ReadExactly` | src/sqlctx/exporting/header.py:18-64 | A header is read from a JSON object exactly when no unknown field is there, the versions are the known ones, every required field names its value, the optional ones agree or are absent, and the header is valid. |
| `CategoryRules.ClassifyWithRules` | src/sqlctx/managed_files/service.py:762-793 | The loop over the configured rules computes the classification: claims by exact name, prefix or schema, one confirmed category or an unresolved record with sorted evidence. |
| `CategoryRules.ConfirmedExactly` | src/sqlctx/managed_files/service.py:762-793 | An unresolved object is confirmed under a category exactly when some rule of that name claims it, by name, by the beginning of its name or by schema, in any case, and every rule that claims it has that name; otherwise it stays unresolved. |
| `CategoryRules.ConfirmedAs` | src/sqlctx/managed_files/service.py:762-793 | A confirmed object has the description of the last rule that claims it, and one piece of evidence: how that rule does, by name before prefix before schema. |
| `CategoryRules.ClassifyIdempotent` | src/sqlctx/managed_files/service.py:762-793 | Classifying a classified header with the same rules changes nothing. |
| `CategoryRules.ClassifyKeeps` | src/sqlctx/managed_files/service.py:762-793 | Classification leaves identity, engine, content hash and fingerprint alone. |
| `CategoryRules.ClassifiedValid` | src/sqlctx/managed_files/service.py:762-793 | A classified header is valid exactly when at most 64 categories claim the object (the bound on evidence). |
| `FolderPlanning.ReadSpeaks` | src/sqlctx/managed_files/service.py:672-720 | Whatever file is read, managed or not, its header speaks for its body: the one object that the body declares, by type and up to case by both names, the folder's engine, and the hash of the body. |
| `FolderPlanning.ManagedIsRead` | src/sqlctx/managed_files/service.py:672-698 | A managed file is read exactly when its header speaks for its body; the first that does not agree decides the error: number of objects, object, engine, content drift. |
| `FolderPlanning.UnmanagedIsRead` | src/sqlctx/managed_files/service.py:699-720 | A file without a header is read as an unresolved object under its own names, its routine in normal form on SQL Server; a damaged header is never passed over. |
| `FolderPlanning.UnmanagedIsTaken` | src/sqlctx/managed_files/service.py:699-720 | Such a file is taken in exactly when it declares one object, its routine has a normal form where one is asked for, and its names and hash fit into a header. |
| `FolderPlanning.PlannedWhere` | src/sqlctx/managed_files/service.py:212-233 | A planned file keeps its name and goes to the folder of its context, or of unknown objects, and of its type; a resolution confirms it under the owner's context and description, with the owner's tags, each once and in order. |
| `FolderPlanning.BodyHasNoReturn` | src/sqlctx/managed_files/service.py:672-720 | A text read with unified newlines gives a body without carriage returns. |
| `FolderApply.PlanFirstIs` | src/sqlctx/managed_files/service.py:198-316 | A plan succeeds exactly when every file is plannable on its own and no identity or destination is claimed twice; its items are then those of the files, in order. |
| `FolderApply.PlanExactly` | src/sqlctx/managed_files/service.py:198-316 | A folder is planned exactly when, besides that, every resolution names a file, there is a file at all, and in place no file is sent to where another one is. |
| `FolderApply.StagedExactly` | src/sqlctx/managed_files/service.py:484-505 | Records are staged exactly when every source is there with the planned text, every stored header is valid and every rendering has the planned hash. |
| `FolderApply.PlanRecords` | src/sqlctx/managed_files/service.py:198-316 | Planned destinations are distinct under case folding, and in place none is another file's source. |
| `FolderApply.ApplyOutcome` | src/sqlctx/managed_files/service.py:559-574 | Applying records with distinct destinations leaves every rendered text at its destination exactly when the unlink pass spares every destination. |
| `FolderApply.ApplyElsewhere` | src/sqlctx/managed_files/service.py:559-574 | A file that is no destination survives with its bytes unless it is a moved source. |
| `FolderApply.PlanLosesNothing` | src/sqlctx/managed_files/service.py:272-286 | An in-place plan that passed its checks loses nothing when applied exactly when the file system ignores case or no file is overtaken: none moves away while another, listed under a case variant of its path, is respelled to that path. |
| `FolderCaseVariants.CaseVariantIsOvertaken` | src/sqlctx/managed_files/service.py:198-316 | A folder of two managed tables under `lut/tables/A.sql` and `Lut/tables/A.sql` whose plan is accepted and staged; applying it removes the file just written, and the new manifest names a file that is not there. |
| `FolderCaseVariants.CaseVariantIsNotFixed` | src/sqlctx/managed_files/service.py:559-574 | What that apply leaves behind is listed and planned again, and is not at rest. |
| `FolderApply.PlannedHeaderIsValid` | src/sqlctx/managed_files/service.py:205-248 | A planned header is valid exactly when an owner resolved the file or at most 64 categories claim the object. |
| `FolderApply.StagedFromPlan` | src/sqlctx/managed_files/service.py:482-505 | On the tree it was made from, a plan passes every check of the apply exactly when each object was resolved by an owner or is claimed by at most 64 categories, and then stages the texts that were planned; otherwise it is refused for its header. |
| `FolderCrowdedPlan.CrowdedPlan` | src/sqlctx/managed_files/service.py:198-316 | A folder with one table that 2 to 260 categories claim, on any file system: its plan is accepted, and it passes the checks of the apply exactly up to 64 categories; from 65 on it is refused for the header it stored. |
| `FolderApply.RenderedReadsBack` | src/sqlctx/managed_files/service.py:497-502 | A rendered file without carriage returns reads back as itself. |
| `FolderApply.ClassificationManifest` | src/sqlctx/managed_files/service.py:484-565 | After a classification every manifest entry names a file with the recorded hash. |
| `FolderApply.ResolutionManifest` | src/sqlctx/managed_files/service.py:506-565 | An owner resolution keeps that true of the entries it preserves and of the one it adds. |
| `FolderFixpoint.ReadsBack` | src/sqlctx/managed_files/service.py:672-720 | Reading a rendered file back returns the header and body it was rendered from, exactly when the header is valid. |
| `FolderFixpoint.PlansAgain` | src/sqlctx/managed_files/service.py:198-316 | A planned file, planned again under any spelling of its destination, is planned for that place with byte-identical text when at most 64 categories claim it; otherwise its header is refused. |
| `FolderFixpoint.PlanningReachesFixedPoint` | src/sqlctx/managed_files/service.py:198-316 | After an in-place plan without owner resolutions is accepted and applied, planning the resulting tree succeeds, moves nothing and rewrites nothing, if and only if no file was respelled in case only on a case-sensitive file system; a case-insensitive one may keep the spelling of folders as it likes. |
| `FolderFixpoint.FixedFile` | src/sqlctx/managed_files/service.py:198-316 | At a fixed point each single file plans to the place where it stands. |
| `FolderFixpoint.RespelledIsNotFixed` | src/sqlctx/managed_files/service.py:559-574 | A file respelled in case only leaves its old source behind on a case-sensitive file system, so the tree is not a fixed point. |
| `ManagedFolder.ManagedFolderService.PlanClassification` | src/sqlctx/managed_files/service.py:198-316 | Planning stores the plan it returns and changes nothing else. |
| `ManagedFolder.ManagedFolderService.PlanManagedResolution` | src/sqlctx/managed_files/service.py:318-446 | A refused resolution stores nothing; one that is planned can be applied until it expires, with exactly the text planned, while the tree and the manifest stay as they were. |
| `ManagedFolder.ResolutionRoundTrip` | src/sqlctx/managed_files/service.py:318-446 | Planned and applied, an owner resolution does what was asked: the file at its destination reads as the same object with the same body and the owner's context, description and tags; the old place is empty if its case-folded path is another, and every other file keeps its bytes. |
| `ManagedFolder.ResolutionIsGuarded` | src/sqlctx/managed_files/service.py:318-446 | A resolution is planned exactly for a managed file that can be read, whose resolved header is valid, that the manifest lists once, with its present hash, and for a free place or the file's own; it goes to the owner's context. |
| `ManagedFolder.ManagedFolderService.Apply` | src/sqlctx/managed_files/service.py:448-589 | The two passes over the records (stage and check everything, stored headers included, then write and unlink) perform the specified step; any error leaves tree and manifest untouched. |
| `ManagedFolder.CheckedExactly` | src/sqlctx/managed_files/service.py:448-530 | A stored plan is applied exactly when it is known, in time and approved, its records can be staged, and for an owner resolution the manifest is the one it was planned on; what fails first decides the error. |
| `ManagedFolder.StepKeepsInvariant` | src/sqlctx/managed_files/service.py:448-589 | Every call keeps the invariant: each manifest entry names a file with its recorded hash, and no stored plan can lose a file; a classification is admitted when none of its files is overtaken. |
| `ManagedFolder.RunKeepsInvariant` | src/sqlctx/managed_files/service.py:448-589 | So does every sequence of classifications, resolutions and applies without outside edits. |
| `ManagedFolder.AppliedObjects` | src/sqlctx/managed_files/service.py:448-589 | After an accepted apply every record's text stands at its destination with its recorded hash, and every uninvolved file keeps its bytes. |
| `ManagedFolder.InvalidPlanNeverApplies` | src/sqlctx/managed_files/service.py:489-495 | A stored plan with a header that is not valid is refused in every state, whoever approves it and whenever, and leaves everything as it is. |
| `RoutineDeploy.PlanDeployment` | src/sqlctx/routine_deploy/service.py:68-209 | The planning loop computes the plan or the first error: engines, missing files and suffixes, headers, types, scopes, drift, identities, duplicates and an empty plan. |
| `RoutineDeploy.PlannedItems` | src/sqlctx/routine_deploy/service.py:90-161 | A plan holds only routines of allowed schemas and allowed types, each identity once under case folding. |
| `RoutineDeploy.PlannedFromFile` | src/sqlctx/routine_deploy/service.py:90-161 | A file gives an item exactly when it is a managed routine that the profile allows, whose header holds the hash of its body and whose normal form declares it; the item records that file and nothing else. |
| `DeploymentPlans.PlannedExactly` | src/sqlctx/routine_deploy/service.py:68-209 | A plan is made exactly when folder and profile are of SQL Server, every file gives an item or is passed over (in a folder: what is no SQL file, and managed tables), no object is claimed twice and something is left; it holds those items, in the files' order. |
| `DeploymentPlans.FingerprintsAreRecorded` | src/sqlctx/routine_deploy/service.py:166-183 | With the database at hand the plan is the same, and each item records what the database holds at that moment. |
| `RoutineDeploy.PlanIsDeployable` | src/sqlctx/routine_deploy/service.py:211-318 | A plan whose files are as they were, and the database too if it was asked, passes every check of the deployment, in time, by its requester, with the write scope and approval: what planning accepts, preparing accepts again with the planned statement. |
| `RoutineDeploy.CheckedIsNormalized` | src/sqlctx/routine_deploy/service.py:130-144 | A checked statement is already in normal form and declares exactly the planned object. |
| `RoutineDeploy.CheckedExactly` | src/sqlctx/routine_deploy/service.py:211-318 | A deployment passes its checks exactly when it is in time, for its requester and profile, on SQL Server, with the write scope and approved, the database holds the recorded fingerprint of every checked object, and every planned file is there with the planned text, header, statement and object; the first that fails decides the error, approval last. |
| `RoutineDeploy.RunOutcome` | src/sqlctx/routine_deploy/service.py:318-351 | A run reads: tried, then skipped; exactly the tried statements were sent, in order and unchanged by their second normalisation, and each result is the database's answer; with stop-on-error at most the last tried one failed. |
| `RoutineDeploy.DeploymentOutcome` | src/sqlctx/routine_deploy/service.py:211-358 | Every statement sent by a checked deployment has the planned hash and declares the planned object, each result is the database's answer to it, and with stop-on-error the results read applied, at most one failed, then skipped. |
| `RoutineDeploy.CountsSum` | src/sqlctx/routine_deploy/service.py:352-358 | Applied, failed and skipped counts add up to the number of results. |
| `RoutineDeploy.Database.ApplyRoutineStatement` | src/sqlctx/adapters/sqlserver/adapter.py:922-943 | Without the write scope, or for a type that is no routine, nothing is sent; otherwise exactly the statement's normal form is. |
| `RoutineDeploy.ApplyDeployment` | src/sqlctx/routine_deploy/service.py:211-358 | The prepare loop and the execution loop perform the specified run; a refused deployment sends nothing; each of the three counts is the number of results of its kind. |
| `CatalogPhaseTwo.RecoveredFinishes` | src/sqlctx/application/catalog.py:155-163 | An interrupted job that is recovered keeps its checkpoints, and the next selection that finishes gives the results of one uninterrupted run. |
| `CatalogPhaseTwo.CatalogService.Select` | src/sqlctx/application/catalog.py:338-353 | Selection is accepted exactly in the selectable states and starts the extraction. |
| `CatalogPhaseTwo.CatalogService.RunPhaseTwo` | src/sqlctx/application/catalog.py:355-536 | The checkpointed loop, stopped by a cancellation or by a crash at any of its points, between the two writes for one object included, performs the specified step. |
| `CatalogPhaseTwo.FinishedHolds` | src/sqlctx/application/catalog.py:355-536 | After any history, a finished job holds what the database answers: the redacted extractions of the objects that extract, in order; a table's foreign keys or a routine's answered dependencies, concatenated; the answered sample of each table and no other; and the number of objects that do not extract. |
| `CatalogPhaseTwo.CancelledHolds` | src/sqlctx/application/catalog.py:388-393 | A cancelled job holds the same of the objects before the cancellation, and no call moves it again. |
| `CatalogPhaseTwo.CrashKeepsWork` | src/sqlctx/application/catalog.py:395-504 | A crash in the loop loses no visited object: its checkpoint is there for the next selection. |
| `CatalogPhaseTwo.WorkedIsStraight` | src/sqlctx/application/catalog.py:355-536 | Over any store of faithful checkpoints the loop gives the objects, samples and dependencies of a run without checkpoints, in the same order. |
| `CatalogPhaseTwo.WorkedConserves` | src/sqlctx/application/catalog.py:355-536 | Analysed plus failed equals the objects visited, after every prefix. |
| `CatalogPhaseTwo.RunKeepsResumable` | src/sqlctx/application/catalog.py:155-163 | Whatever selections, cancellations, crashes and recoveries happen, the stored checkpoints stay faithful and the job stays on the same objects. |
| `CatalogPhaseTwo.ResumingAgrees` | src/sqlctx/application/catalog.py:155-536 | Over every history of any job with faithful checkpoints, carried over or its own, selecting again gives the same objects, samples, dependencies and failures as one uninterrupted run without checkpoints, and analysed plus failed equals the total. |
| `CatalogPhaseTwo.CarriedIsFaithful` | src/sqlctx/application/catalog.py:262-296 | While the earlier checkpoints are faithful, the copies that `create` makes of them, tables as definitions only, are faithful if and only if no copied table holds a definition that another redaction would change. |
| `SecretRedaction.RedactedIsClean` | src/sqlctx/security/masking.py:199-222 | Redacting the secrets of a definition leaves it alone exactly when none of the three patterns matches anywhere in it: what one pass puts in, no later one takes back. |
| `RedactionForms.SecretIsHidden` | src/sqlctx/security/masking.py:199-222 | A secret assigned in quotes on one line, its keyword in any case and any blanks around the sign, is replaced; its keyword stays. |
| `RedactionForms.BearerIsHidden` | src/sqlctx/security/masking.py:199-222 | A bearer token, its word in any case, is replaced whole. |
| `RedactionForms.KeyIsHidden` | src/sqlctx/security/masking.py:199-222 | A private key of any kind is replaced from marker to marker, over all its lines. |
| `RedactionForms.NothingIsLeft` | src/sqlctx/security/masking.py:199-222 | A definition that redaction leaves alone holds none of the three, wherever it would stand and whatever is around it. |
| `SecretRedaction.CarriedDefinitionDrifts` | src/sqlctx/application/catalog.py:419-432 | A table whose definition holds a quoted password over two lines with a bearer token in it is redacted differently the second time; a job that starts from its copied checkpoint ends with another definition than one that starts from nothing. |
| `CatalogPhaseTwo.CreatedIsResumable` | src/sqlctx/application/catalog.py:237-296 | A new job meets the condition of that theorem exactly when the checkpoints it starts from are faithful. |
| `CatalogPhaseTwo.WarnedIsTroubled` | src/sqlctx/application/catalog.py:505-510 | A run over faithful checkpoints warns exactly when some object reads incompletely now (extraction, sample or dependencies) and had no completed checkpoint before the run. |
| `CatalogPhaseTwo.IncompleteMeans` | src/sqlctx/application/catalog.py:421-489 | Reading is incomplete exactly when the object does not extract, or a table's sample or a routine's dependencies are not answered. |
| `CatalogPhaseTwo.ResumedStatus` | src/sqlctx/application/catalog.py:505-510 | After any such history the final status agrees with the uninterrupted run's exactly when nothing reads incompletely, or something does that no checkpoint standing before the last selection hides. |
| `CatalogPhaseTwo.CrashIsResumable` | src/sqlctx/application/catalog.py:155-163 | After a crash the job can be selected again after recovery, unless the crash fell between the final record and the snapshot of a run that ended with warnings; then no call moves it again. |
| `CatalogPhaseTwo.ResumeCanDropWarning` | src/sqlctx/application/catalog.py:399-416 | The two can differ: one table without a sample, interrupted after its checkpoint and resumed, ends as ready instead of with warnings. |
| `ContextIndex.ContextIndexService.UpsertMetadataContext` | src/sqlctx/adapters/sqlserver/adapter.py:650-783 | The MERGE: afterwards one active row of the identity holds the entry's technical values, and its classification unless an owner's was there and the entry is not an owner's; no other row changes; a row is inserted exactly when none was active, and `unchanged` is reported exactly when nothing changed. |
| `ContextIndex.ContextIndexService.DeactivateMissing` | src/sqlctx/adapters/sqlserver/adapter.py:785-874 | The UPDATE: no active row of the scope is left that was not submitted, the rows it touched are only marked as deleted and were in scope and not submitted, every other row is as it was, and the number reported is that of the rows changed. |
| `ContextIndex.ContextIndexService.SyncRequest` | src/sqlctx/context_index/service.py:84-222 | The loop over the entries performs the specified synchronisation and counts it. |
| `ContextIndex.SyncRespectsRows` | src/sqlctx/adapters/sqlserver/adapter.py:663-691 | One synchronisation, accepted or refused: owner classifications change only by an owner entry for the same object, deleted rows never change, every row stays coherent. |
| `ContextIndexLaws.RunRespectsOwners` | src/sqlctx/context_index/service.py:84-222 | Over every run of inventory and owner synchronisations an owner-classified row changes its classification only if an approved owner request names it; every row stays coherent and each identity has at most one active row. |
| `ContextIndexLaws.RepeatChangesNothing` | src/sqlctx/context_index/service.py:84-222 | Sending an accepted request again changes no row and reports only `unchanged`. |
| `ContextIndexLaws.CompleteScopeIsExact` | src/sqlctx/adapters/sqlserver/adapter.py:785-874 | After an accepted complete-scope synchronisation the active identities of the scope are exactly those submitted, and rows outside it are as they were. |
| `ContextIndexLaws.CountsConserve` | src/sqlctx/context_index/service.py:144-222 | Inserted, updated and unchanged add up to the entries, and the number of active rows moves by inserted less deactivated. |
| `ContextIndexLaws.AcceptedExactly` | src/sqlctx/context_index/service.py:84-222 | A synchronisation is accepted exactly on SQL Server, with the write scope, for objects of the profile alone, approved if it is an owner's, and with a deactivation only over the profile's whole boundary; what fails first decides the error, and only the last refusal comes after the upserts. |
| `ContextIndexLaws.PreservedAreOwners` | src/sqlctx/context_index/service.py:144-222 | The number of preserved owner values is that of the entries, not an owner's, whose object an owner had classified. |
| `ContextIndexLaws.ValidIdsAreDistinct` | src/sqlctx/context_index/contracts.py:118-140 | The request validator's case-folded uniqueness makes the submitted identities distinct. |
| `ExportPaths.NormalisedIsNormal` | src/sqlctx/exporting/assembly.py:36-40 | A normalised safe path is safe and normalises to itself. |
| `ExportPaths.UnsafeIsRefused` | src/sqlctx/exporting/assembly.py:36-40 | Empty and absolute paths, backslashes and steps upwards are refused wherever they stand. |
| `ExportPaths.OrderedIsSorted` | src/sqlctx/exporting/assembly.py:211-214 | The listing of a set of paths is strictly sorted in code-point order. |
| `Assembly.ManagedFromManifest` | src/sqlctx/exporting/assembly.py:43-50 | The loop reads a manifest's managed paths, refusing unsafe and repeated ones. |
| `Assembly.MergeBundles` | src/sqlctx/exporting/assembly.py:77-135 | The nested loops over batches and declared files absorb exactly the pieces of those batches, stopping at the first fault or conflict. |
| `Assembly.OutputRoot.WriteFiles` | src/sqlctx/exporting/assembly.py:244-263 | The write loop replaces files in path order until an unmanaged, different file stands in the way. |
| `Assembly.OutputRoot.DeleteStale` | src/sqlctx/exporting/assembly.py:264-267 | The delete loop removes exactly the stale files. |
| `Assembly.OutputRoot.AssembleBundles` | src/sqlctx/exporting/assembly.py:53-273 | A whole assembly: checks, merge, reports, writing, deletion and inventory, with every error in its place. |
| `AssemblyLaws.AbsorbIs` | src/sqlctx/exporting/assembly.py:94-135 | Merging succeeds exactly when no file or lint result disagrees with another, and the result is then their union. |
| `AssemblyLaws.OrderDoesNotMatter` | src/sqlctx/exporting/assembly.py:77-135 | The same batches in any order, repeated or not, are accepted or refused alike and give the same files outside the aggregate reports. |
| `AssemblyLaws.WriteAllIs` | src/sqlctx/exporting/assembly.py:244-263 | The write pass succeeds exactly when nothing is protected; stopped or not, no file is lost and only incoming bytes are written. |
| `AssemblyLaws.UnmanagedFilesSurvive` | src/sqlctx/exporting/assembly.py:223-267 | A file that no earlier assembly recorded keeps its bytes, whether the assembly succeeds or not. |
| `AssemblyLaws.AssembleOutcome` | src/sqlctx/exporting/assembly.py:223-273 | An assembly succeeds exactly when the batches merge, the recorded manifest can be read, stale files may go and nothing unmanaged is in the way; the root is then the old one without its stale files, overwritten by the merge; otherwise no file has gone. |
| `AssemblyLaws.AssembledExactly` | src/sqlctx/exporting/assembly.py:53-273 | An assembly succeeds exactly when the batches merge, the recorded manifest can be read, no file it names would be left over (or that was allowed), and no file outside it stands in the way with other bytes. |
| `AssemblyLaws.AccountedExactly` | src/sqlctx/exporting/assembly.py:144-160 | The lint counts add up exactly when every merged item has one of the four known statuses. |
| `AssemblyLaws.CountsAre` | src/sqlctx/exporting/assembly.py:144-154 | Each lint count is the number of items with its statuses. |
| `AssemblyLaws.AccountingIsRefused` | src/sqlctx/exporting/assembly.py:155-160 | Batches of one profile that merge are refused for their accounting exactly when some merged item has another status. |
| `AssemblyLaws.IndexHolds` | src/sqlctx/exporting/assembly.py:178-190 | The context index lists, in order, exactly the merged files of the four kinds outside the reports. |
| `AssemblyLaws.LintReportHolds` | src/sqlctx/exporting/assembly.py:167-170 | The lint report holds every merged item once, in the order of their identifiers. |
| `AssemblyLaws.SortFilesIs` | src/sqlctx/exporting/service.py:465-470 | The listing that is hashed is in path order, and entries of one path keep theirs. |
| `AssemblyLaws.SecondRunChangesNothing` | src/sqlctx/exporting/assembly.py:53-273 | Assembling the same batches again changes no file and takes the same inventory, whatever deletion is allowed. |
| `AssemblyLaws.InventoryIs` | src/sqlctx/exporting/validation.py:39-94 | The inventory of an assembled root lists its managed files with their sizes and hashes, and the manifest. |
| `BundleValidation.ValidateInventory` | src/sqlctx/exporting/service.py:444-502 | The loops over manifests and submitted files accept exactly when the inventory matches. |
| `BundleValidation.AcceptedIff` | src/sqlctx/exporting/service.py:415-502 | An inventory is accepted exactly when its files outside the reports are those declared, with sizes and hashes, the reports are those of the profile, and the recorded hashes are that of its manifest entry and that of the whole list in path order. |
| `AssembledOutput.DeclaredIsMerged` | src/sqlctx/exporting/assembly.py:102-135 | Every file a batch declares outside the aggregates is merged, with the declared size and hash. |
| `AssembledOutput.MergedIsDeclared` | src/sqlctx/exporting/assembly.py:102-135 | Every merged file was declared so by some batch. |
| `AssembledOutput.AssembledIsAccepted` | src/sqlctx/exporting/service.py:415-502 | What an accepted assembly inventories passes the inventory check against its own batches, if and only if their profile is `ai` or `full` and they list their files under normalised paths. |
| `AssembledOutput.SpelledIsRefused` | src/sqlctx/exporting/assembly.py:102-135 | A batch that lists `./a.sql` for its file `a.sql` assembles into an empty root, and the inventory is refused. |
| `Crockford.EncodeBytes` | src/sqlctx/security/masking.py:40-46 | Repeated division, reversal and padding compute the base-32 form of a digest. |
| `Crockford.EncodeIsInjective` | src/sqlctx/security/masking.py:40-46 | Every 32-byte digest has a form of 52 characters of its own. |
| `AliasRegistry.AliasEngine.Alias` | src/sqlctx/security/masking.py:106-125 | The lengthening loop ends within 22 rounds with an alias nobody else holds, records it, and keeps the registry well formed and injective. |
| `AliasRegistry.WholeFormIsFree` | src/sqlctx/security/masking.py:114-122 | In a registry the engine built, the full form of a digest is never held by another. |
| `AliasRegistry.RegistryStaysInjective` | src/sqlctx/security/masking.py:106-125 | Over every run, under any mix of classes, no two digests hold one alias. |
| `AliasRegistry.OneClassCorresponds` | src/sqlctx/security/masking.py:106-125 | Over a run, two requests get the same alias exactly when they are for the same digest, for all pairs, if and only if each digest is asked for under one class. |
| `AliasRegistry.ForgottenAliasIsReused` | src/sqlctx/security/masking.py:109-125 | Under two classes even another digest can be given the first alias, when the two forms share their ten characters. |
| `AliasRegistry.DigestsShareTen` | src/sqlctx/security/masking.py:40-46 | Such digests exist. |
| `Splicing.SpliceAll` | src/sqlctx/security/protector.py:293-296 | Replacing spans from the last to the first gives the left-to-right rebuild of the text. |
| `Splicing.SpliceRoundTrip` | src/sqlctx/security/protector.py:293-296 | Nothing outside the spans is lost or moved: putting the old texts back where the new ones stand gives the old text. |
| `Splicing.SortIsChain` | src/sqlctx/query_data/validation.py:245-248 | Sorting disjoint spans by start orders them without overlap and loses none. |
| `TextScan.ScanText` | src/sqlctx/security/protector.py:262-296 | Collecting the matches of the patterns in order of priority and splicing them gives the rebuild over the chosen spans, or the text itself when none is chosen. |
| `TextScan.ChosenAreApart` | src/sqlctx/security/protector.py:266-270 | Chosen spans are pairwise disjoint. |
| `TextScan.EarlierMatchWins` | src/sqlctx/security/protector.py:266-270 | A match is left out only for one before it, in the order of the patterns, that is replaced. |
| `TextScan.EveryMatchIsCovered` | src/sqlctx/security/protector.py:266-270 | Every match of every pattern is replaced or overlaps a replaced one, and nothing but matches is replaced. |
| `QueryLiterals.QuotedRoundTrip` | src/sqlctx/query_data/validation.py:396-401 | A quoted literal, national or not, is bound as exactly the text it quotes. |
| `QueryLiterals.IntegerIsRead` | src/sqlctx/query_data/validation.py:402-403 | A whole number is bound as its value, with its sign. |
| `QueryLiterals.FractionIsRead` | src/sqlctx/query_data/validation.py:404-408 | A number with a point, digits before or behind it, and any sign and exponent, is bound as it is written. |
| `QueryLiterals.WordIsRefused` | src/sqlctx/query_data/validation.py:395-409 | A literal that holds neither a digit nor a quote has no value and is refused. |
| `QueryLiterals.ParameterizeLiterals` | src/sqlctx/query_data/validation.py:358-393 | The loop binds the sorted literals to placeholders one after another, with its errors. |
| `QueryLiterals.BoundExactly` | src/sqlctx/query_data/validation.py:358-393 | The literals are bound exactly when each has its slice, the structural ones are plain numbers and the others have values. |
| `QueryLiterals.ParametersCorrespond` | src/sqlctx/query_data/validation.py:358-393 | The k-th parameter is the value of the k-th bound literal, and the k-th replacement stands on that literal with the k-th placeholder. |
| `QueryLiterals.PlaceholdersInOrder` | src/sqlctx/query_data/validation.py:245-248 | Read from left to right, the placeholders in the canonical query are those of the parameters, in the parameters' order, with qualified tables between them. |
| `QueryLiterals.Canonicalize` | src/sqlctx/query_data/validation.py:241-255 | The canonical query is the rebuild over tables and literals, stripped, with its parameters. |
| `DigitFakes.GrowDigits` | src/sqlctx/security/protector.py:304-310 | The hashing loop ends and gives exactly the digits asked for. |
| `DigitFakes.FakeDigits` | src/sqlctx/security/protector.py:317-325 | A fake keeps length and every non-digit, starts its digits with 0 and takes the rest from the seed; a text without digits is redacted. |
| `DigitFakes.FakeThaiId` | src/sqlctx/security/protector.py:327-336 | A thirteen-digit fake satisfies the check-digit rule; any other count is faked as plain digits. |
| `DigitFakes.ThaiIdCheckDigit` | src/sqlctx/security/sensitivity.py:350-352 | The summing loop computes the check digit. |
| `DigitFakes.SameCheckDigit` | src/sqlctx/security/sensitivity.py:350-352 | Two prefixes have the same check digit exactly when their totals agree modulo 11 or leave 0 and 10. |
| `DigitFakes.OneDigitErrors` | src/sqlctx/security/sensitivity.py:350-352 | One wrong digit goes unnoticed exactly at the third place, or when the totals leave 0 and 10. |
| `DigitFakes.SwappedDigits` | src/sqlctx/security/sensitivity.py:350-352 | Two exchanged neighbours go unnoticed exactly when the totals leave 0 and 10. |
| `Approvals.ApprovalService.NewChallenge` | src/sqlctx/security/approvals.py:43-63 | Afterwards the records are exactly the new one, for that request, ungranted, unconsumed and expiring after the time to live, and the earlier ones with other identifiers. |
| `Approvals.ApprovalService.GrantChallenge` | src/sqlctx/security/approvals.py:65-89 | A grant is given exactly from an interactive session to a challenge that is known and has time left, and marks that challenge alone; otherwise the error says which of the three failed and nothing changes. |
| `Approvals.ApprovalService.ConsumeChallenge` | src/sqlctx/security/approvals.py:91-118 | A challenge is accepted exactly when the one named is for this request, granted, unused and in time; it is then used up and nothing else changes. |
| `Approvals.ApprovalService.RequireApproval` | src/sqlctx/security/approvals.py:120-157 | Accepted exactly when some granted challenge of this request can be used, and one is then used up; pending exactly when none is granted but one is open; otherwise a new challenge is issued. |
| `Approvals.ApprovalService.CleanupExpired` | src/sqlctx/security/approvals.py:189-204 | Exactly the records whose expiry lies at least the retention back are gone. |
| `Approvals.AcceptanceIsEarned` | src/sqlctx/security/approvals.py:91-157 | In every run each acceptance is for a challenge that an earlier call issued for exactly that caller, operation, target and digest, that the owner granted in time, and that has not expired; the clock need not even be monotonic. |
| `Approvals.GrantedIsAccepted` | src/sqlctx/security/approvals.py:43-157 | Conversely, a challenge that was issued, then granted in time, and neither used nor cleaned away since, is accepted until it expires: by its identifier, and whenever its request asks for approval. |
| `Approvals.AcceptancesDiffer` | src/sqlctx/security/approvals.py:91-157 | With fresh identifiers no challenge is accepted twice. |
| `Approvals.AcceptancesWithinGrants` | src/sqlctx/security/approvals.py:43-204 | A request is accepted at most as often as it was granted, cleanup and reuse included; what is still available is part of the account. |
| `BoundedQuery.Execute` | src/sqlctx/query_data/service.py:107-146 | The batched loop ends, reads at most one row more than the limit, and its result does not depend on the sizes the batches come in. |
| `BoundedQuery.EmitIsPrefix` | src/sqlctx/query_data/service.py:117-146 | The rows returned are the first of the stream, in order; `row_limit` is reported exactly when the limit was reached and another row exists, `output_limit` exactly when the next row would not fit. |
| `BoundedQuery.FullIsRefused` | src/sqlctx/query_data/service.py:132-143 | A full result is refused exactly when a short one would stop for size, and is otherwise the same. |
| `BoundedQuery.AnswerSize` | src/sqlctx/query_data/service.py:109-112 | The answer's size in bytes is what was counted, less the reserve, plus each late marker with the space before it. |
| `BoundedQuery.AnswerIsBounded` | src/sqlctx/query_data/service.py:109-151 | If the first header fits with its reserve, an answer is at most the bound plus one byte for each column marked late. |
| `BoundedQuery.BoundIsReached` | src/sqlctx/query_data/service.py:109-112 | For every header with room for it, one row with a replacement in every column, whatever the replacement, makes an answer of exactly the bound plus 14 bytes for each column without a marker less 13 for each column. |
| `BoundedQuery.EveryAnswerFitsExactly` | src/sqlctx/query_data/service.py:109-151 | Over all rows, replacements, limits and modes, every answer below a header keeps the bound if and only if 14 bytes for each column without a marker are within 13 for each column (when a row has room below the header; otherwise, if and only if the header fits with all late markers). |
| `Markdown.LateHeader` | src/sqlctx/query_data/service.py:337-348 | Each late marker lengthens the header by its own bytes and one space, whatever the names hold. |
| `Markdown.EscapeAppend` | src/sqlctx/query_data/markdown.py:22-35 | Escaping a cell treats an appended marker on its own. |
| `Markdown.RowIsRead` | src/sqlctx/query_data/markdown.py:22-39 | A row, split at the bars that no backslash hides and its backslashes read, gives exactly its cells again, whatever they hold; line breaks show as a mark and control characters as the replacement character. |
| `Pagination.Decode64RoundTrip` | src/sqlctx/application/pagination.py:14-24 | The lenient base-64 decoder recovers every byte string from its padded form (section 5 of RFC 4648). |
| `Pagination.PaddingRoundTrip` | src/sqlctx/application/pagination.py:14-22 | Stripping the padding and putting it back by length is harmless. |
| `Pagination.CursorRoundTrip` | src/sqlctx/application/pagination.py:14-29 | Decoding an encoded cursor returns its offset, for every natural number. |
| `Pagination.ForeignCursorIsRefused` | src/sqlctx/application/pagination.py:18-29 | A cursor that carries another version, a negative offset or no colon is refused. |
| `Pagination.PageIsGiven` | src/sqlctx/application/pagination.py:32-39 | A page is given exactly for a limit from 1 to 250 and a cursor that can be read. |
| `Pagination.PagesVisitEverything` | src/sqlctx/application/pagination.py:32-39 | Following the cursors from the start ends and visits every item exactly once, in order, for every list and every limit from 1 to 250. |

## Left out

- Unicode beyond ASCII in keywords, names and case folding: word characters, letter case and `casefold` are those of ASCII.
- JSON numbers with a fraction or exponent, and lone surrogates: no header holds them.
- YAML: a manifest file is a document value; its text, and a previous manifest that parses to something other than a mapping, are not modelled.
- The wording of aggregate reports: a report is the value it is written from.
- Folder plans into a second root: only in-place plans are modelled, with both applies.
- The manifest's JSON text, its order, the inventory hash and the count of moved files; where an owner resolution compares the hash of that text, the model compares the entries.
- Directories: created and removed as needed in the code, invisible in a map from paths to files; a path that is both a file and a folder is not modelled.
- The temporary name used while a file is replaced: each replacement is one step, and a crash inside the write pass of an apply is not modelled.
- Path resolution through symbolic links and outside the root: paths are taken as already safe, except in assembly, whose path rules are modelled.
- Registration of folders and profiles, audit logging and the wiring of approvals into services: an approval is a yes or no of the call.
- Zip archives: repeated member names, links, member sizes and the bundle-level checks of `src/sqlctx/exporting/service.py:423-443`; a batch is its files and a digest.
- The counts of a validation request and its format version: plain comparisons.
- An output root that does not distinguish case, in assembly.
- The file names of checkpoints, which are hashes of object identifiers: checkpoints are stored under the identifier itself.
- Damaged checkpoints, and the choice of the earlier catalog whose checkpoints are copied: the copies and the agreeing validators are parameters.
- Approvals.ApprovalService.CleanupExpired: does not return the sorted list of removed identifiers, which is that of the records gone.
- The contents of extracted objects, samples and dependency edges: they are what the adapter answers, the same each time.
- SQL collation in the context index: identities are equal when their strings are; timestamps and row identifiers do not appear.
- An adapter that fails inside a synchronisation, and the schema check before it.
- The regular expressions for personal data and the replacements they compute: matches are given, non-empty, in range.
- Names and addresses, coarse locations, birth years and the masking of JSON: choices by table look-up or plain recursion.
- The SQL parser: literals and table references come with their slices, disjoint and non-empty.
- QueryLiterals.Canonicalize: asks for disjoint slices, which the parser gives.
- Policies, lineage, display names and the limit of 50 columns of a query: decided before the loop starts.
- The shortening of long cells in short mode: a row is its cells, whatever they are; the full-mode row of `BoundedQuery.BoundIsReached` is not shortened.
- The marking of personal data in definitions: what follows the redaction of secrets is a parameter.
- Cursors whose bytes are not ASCII are refused, although `int` accepts other digits; and numbers too long for Python's digit limit.
- The HTTP, command-line and MCP surfaces, installers, drivers, encryption and access control.
- Races between processes: every method is one step.
