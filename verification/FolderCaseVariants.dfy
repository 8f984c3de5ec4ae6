/** A folder whose two paths differ in case alone, on a file system that tells case apart. Its plan is
    accepted and can be applied, and the apply removes a file that it has just written. */
module FolderCaseVariants {
  import opened Text
  import opened FileTree
  import opened Declarations
  import opened DeclarationNames
  import opened ManagedHeader
  import opened CategoryRules
  import opened FolderPlanning
  import opened FolderApply
  import opened FolderFixpoint

  const NAME := "A.sql"
  const UPPER := "Lut/tables/A.sql"
  const LOWER := "lut/tables/A.sql"
  const OTHER := "other/tables/A.sql"

  function Body(name: string): string {
    CREATE_TABLE + TwoNames("dbo", name, "")
  }

  /** A table that its owner has put into a context. */
  function OwnedTable(name: string, context: string, sha: Sha): Header {
    Header(ObjectId(Table, "dbo", name), SqlServer, "dbo", name, Table, Some(context), None, [], [], Confirmed, Owner,
           None, sha(Body(name)))
  }

  function FileText(name: string, context: string, sha: Sha): string {
    Render(OwnedTable(name, context, sha), Body(name))
  }

  /** Table A lies in the folder `lut` and belongs to `other`; table B lies in `Lut` and belongs to `lut`. */
  function Folder(sha: Sha): Tree {
    map[LOWER := File(LOWER, FileText("A", "other", sha)), UPPER := File(UPPER, FileText("B", "lut", sha))]
  }

  const FILES: seq<string> := [UPPER, LOWER]
  const REQUEST := PlanRequest(SqlServer, None, true, map[])

  function Items(sha: Sha): seq<Planned> {
    [ Planned(UPPER, FileText("B", "lut", sha), OwnedTable("B", "lut", sha), Body("B"), LOWER),
      Planned(LOWER, FileText("A", "other", sha), OwnedTable("A", "other", sha), Body("A"), OTHER) ]
  }

  /** What the apply leaves: B still under its old path, A under its new one, and nothing where B was
      written. */
  function Left(sha: Sha): Tree {
    map[UPPER := File(UPPER, FileText("B", "lut", sha)), OTHER := File(OTHER, FileText("A", "other", sha))]
  }

  ghost predicate IsHash(sha: Sha) {
    forall s: string :: IsSha256(sha(s))
  }

  // ----- Each file alone -----------------------------------------------------------------

  predicate IsTable(name: string, context: string) {
    (name == "A" && context == "other") || (name == "B" && context == "lut")
  }

  lemma NothingDeclared()
    ensures DeclaredIn("") == []
  {
  }

  lemma {:induction false} DoubledHasNoReturn(s: string)
    requires NoReturn(s)
    ensures NoReturn(DoubleBrackets(s))
  {
    if s != "" {
      DoubledHasNoReturn(s[1..]);
    }
  }

  lemma BodyIsText(name: string, context: string)
    requires IsTable(name, context)
    ensures NoReturn(Body(name))
  {
    hide DoubleBrackets;
    DoubledHasNoReturn("dbo");
    DoubledHasNoReturn(name);
    assert NoReturn(CREATE_TABLE);
    assert NoReturn(Bracketed("dbo")) && NoReturn(Bracketed(name));
  }

  lemma BodyIsTable(name: string, context: string)
    requires IsTable(name, context)
    ensures DetectIdentity(Body(name)) == Ok(Identity(Table, "dbo", name))
  {
    hide DetectIdentity, DeclaredIn;
    NothingDeclared();
    TableIsIdentified("dbo", name, "");
  }

  lemma OwnedIsValid(name: string, context: string, sha: Sha)
    requires IsTable(name, context) && IsHash(sha)
    ensures Valid(OwnedTable(name, context, sha))
  {
    hide IsSha256, Body;
    assert IsSha256(sha(Body(name)));
    assert All(context, IsSafeChar);
  }

  lemma OwnedIsChecked(name: string, context: string, sha: Sha)
    requires IsTable(name, context)
    ensures var h := OwnedTable(name, context, sha);
            CheckManaged(h, Body(name), SqlServer, sha) == Ok((h, Body(name)))
  {
    hide Body, DetectIdentity, Casefold;
    BodyIsTable(name, context);
  }

  lemma FileIsRead(name: string, context: string, sha: Sha)
    requires IsTable(name, context) && IsHash(sha)
    ensures ReadText(FileText(name, context, sha)) == FileText(name, context, sha)
    ensures ReadIdentity(FileText(name, context, sha), SqlServer, sha)
         == Ok((OwnedTable(name, context, sha), Body(name)))
  {
    hide Body, Valid, Parse, Render, ReadText, CheckManaged, NoReturn, OwnedTable, Adopt, IsHash;
    var h := OwnedTable(name, context, sha);
    BodyIsText(name, context);
    OwnedIsValid(name, context, sha);
    OwnedIsChecked(name, context, sha);
    HeaderRoundTrip(h, Body(name));
    RenderedReadsBack(h, Body(name));
  }

  /** An owner's decision stands, so the file belongs into the folder of its context. */
  lemma FileIsPlanned(path: string, name: string, context: string, sha: Sha)
    requires IsTable(name, context) && IsHash(sha)
    ensures PlanFile(path, FileText(name, context, sha), REQUEST, None, sha)
         == Ok(Planned(path, FileText(name, context, sha), OwnedTable(name, context, sha), Body(name),
                       context + "/tables/" + Name(path)))
  {
    hide Body, FileText, ReadIdentity, Name, IsHash, FromMatches;
    FileIsRead(name, context, sha);
    var h := OwnedTable(name, context, sha);
    assert Destination(h, Name(path)) == context + "/tables/" + Name(path);
  }

  // ----- The three paths -----------------------------------------------------------------

  lemma PathNames()
    ensures Name(UPPER) == NAME && Name(LOWER) == NAME
    ensures "lut" + "/tables/" + NAME == LOWER && "other" + "/tables/" + NAME == OTHER
    ensures UPPER != LOWER && UPPER != OTHER && LOWER != OTHER
  {
    hide Name;
    assert "Lut/tables" + "/" + NAME == UPPER;
    NameOf("Lut/tables", NAME);
    assert "lut/tables" + "/" + NAME == LOWER;
    NameOf("lut/tables", NAME);
    assert |OTHER| == 18;
  }

  lemma PathKeys()
    ensures Casefold(UPPER) == Casefold(LOWER)
    ensures Casefold(OTHER) != Casefold(LOWER) && Casefold(OTHER)[0] == 'o' && Casefold(LOWER)[0] == 'l'
    ensures !Less(Casefold(LOWER), Casefold(UPPER)) && !Less(Casefold(OTHER), Casefold(LOWER))
  {
    var rest := "ut/tables/A.sql";
    assert UPPER == "L" + rest && LOWER == "l" + rest;
    CasefoldConcat("L", rest);
    CasefoldConcat("l", rest);
    assert Casefold("L") == "l" == Casefold("l");
    LessIsStrict(Casefold(LOWER));
  }

  lemma PathsAreSql()
    ensures IsSql(CaseSensitive, UPPER) && IsSql(CaseSensitive, LOWER) && IsSql(CaseSensitive, OTHER)
  {
  }

  // ----- The plan ------------------------------------------------------------------------

  lemma FolderIsListed(sha: Sha)
    ensures IsListing(CaseSensitive, Folder(sha), FILES) && WellKeyed(CaseSensitive, Folder(sha))
    ensures Stored(CaseSensitive, Folder(sha), FILES)
  {
    hide Casefold, Less, IsSql, FileText;
    PathKeys();
    PathNames();
    PathsAreSql();
  }

  lemma ContentOfFolder(sha: Sha)
    requires IsHash(sha)
    ensures Stored(CaseSensitive, Folder(sha), FILES)
    ensures Content(CaseSensitive, Folder(sha), UPPER) == FileText("B", "lut", sha)
    ensures Content(CaseSensitive, Folder(sha), LOWER) == FileText("A", "other", sha)
  {
    hide FileText, ReadText, IsHash, ReadIdentity, OwnedTable, Body;
    FileIsRead("A", "other", sha);
    FileIsRead("B", "lut", sha);
    PathNames();
  }

  lemma ItemKeys(sha: Sha)
    ensures IdentityKey(Items(sha)[0]) != IdentityKey(Items(sha)[1])
    ensures DestinationKey(Items(sha)[0]) == SourceKey(Items(sha)[0]) == SourceKey(Items(sha)[1])
    ensures DestinationKey(Items(sha)[1]) != SourceKey(Items(sha)[1])
  {
    hide FileText, Body, Casefold;
    PathKeys();
    IdKeys();
  }

  lemma IdKeys()
    ensures Casefold(ObjectId(Table, "dbo", "A")) != Casefold(ObjectId(Table, "dbo", "B"))
  {
    var a, b := ObjectId(Table, "dbo", "A"), ObjectId(Table, "dbo", "B");
    assert a == "table:dbo." + "A" && b == "table:dbo." + "B";
    assert Casefold(a)[10] == LowerChar('A') && Casefold(b)[10] == LowerChar('B');
  }

  lemma NoneResolved(n: nat)
    requires n < |FILES|
    ensures ResolutionFor(FILES, n, REQUEST.resolutions) == None
  {
  }

  lemma FolderPlanned(sha: Sha)
    requires IsHash(sha)
    ensures Stored(CaseSensitive, Folder(sha), FILES)
    ensures PlannedFrom(CaseSensitive, Folder(sha), FILES, 2, REQUEST, sha, Items(sha))
  {
    hide FileText, ResolutionFor, PlanFile, Folder, Content, IdentityKey, DestinationKey, Name, IsHash, Body,
         OwnedTable;
    ContentOfFolder(sha);
    ItemKeys(sha);
    PathNames();
    NoneResolved(0);
    NoneResolved(1);
    FileIsPlanned(UPPER, "B", "lut", sha);
    FileIsPlanned(LOWER, "A", "other", sha);
  }

  lemma FolderFinished(sha: Sha)
    ensures Finish(FILES, Items(sha), REQUEST) == Ok(Items(sha))
  {
    hide FileText, Body, OwnedTable, Casefold;
    PathKeys();
  }

  lemma FolderPlan(sha: Sha)
    requires IsHash(sha)
    ensures Stored(CaseSensitive, Folder(sha), FILES)
    ensures Plan(CaseSensitive, Folder(sha), FILES, REQUEST, sha) == Ok(Items(sha))
  {
    hide PlannedFrom, PlanFirst, Folder, Finish, Items, IsHash;
    FolderPlanned(sha);
    PlanFirstIs(CaseSensitive, Folder(sha), FILES, 2, REQUEST, sha, Items(sha));
    FolderFinished(sha);
  }

  lemma FolderStaged(sha: Sha)
    requires IsHash(sha)
    ensures Stage(CaseSensitive, Folder(sha), RecordsOf(Items(sha), sha), 2, SqlServer, sha) == Ok(Texts(Items(sha)))
  {
    hide Folder, PlannedFrom, Stage, Texts, RecordsOf, FileText, Body, OwnedTable, Valid, IsHash, StageText;
    FolderPlanned(sha);
    StagedFirst(CaseSensitive, Folder(sha), FILES, Items(sha), 2, REQUEST, sha);
    OwnedIsValid("A", "other", sha);
    OwnedIsValid("B", "lut", sha);
    assert Texts(Items(sha))[..2] == Texts(Items(sha));
  }

  // ----- The apply -----------------------------------------------------------------------

  lemma RecordsAre(sha: Sha)
    ensures var records, texts := RecordsOf(Items(sha), sha), Texts(Items(sha));
            && |records| == |texts| == 2
            && records[0].source == UPPER && records[0].destination == LOWER && !records[0].Moves()
            && records[1].source == LOWER && records[1].destination == OTHER && records[1].Moves()
            && texts[0] == FileText("B", "lut", sha) && texts[1] == FileText("A", "other", sha)
  {
    hide FileText, Body, OwnedTable, Casefold;
    PathKeys();
    RenderedAre(sha);
  }

  lemma RenderedAre(sha: Sha)
    ensures Items(sha)[0].Rendered() == FileText("B", "lut", sha)
    ensures Items(sha)[1].Rendered() == FileText("A", "other", sha)
  {
    hide Body, OwnedTable, Render;
  }

  lemma WriteTwo(fs: FileSystem, tree: Tree, records: seq<Record>, texts: seq<string>)
    requires |records| == |texts| == 2
    ensures WriteAll(fs, tree, records, texts)
         == Write(fs, Write(fs, tree, records[0].destination, texts[0]), records[1].destination, texts[1])
  {
    hide Write;
    assert records[..1] == [records[0]] && texts[..1] == [texts[0]];
    WriteOne(fs, tree, records[0], texts[0]);
  }

  lemma UnlinkTwo(fs: FileSystem, tree: Tree, records: seq<Record>)
    requires |records| == 2 && !records[0].Moves() && records[1].Moves()
    ensures UnlinkAll(fs, tree, records) == Remove(fs, tree, records[1].source)
  {
    hide Remove, Record.Moves;
    assert records[..1] == [records[0]];
    UnlinkOne(fs, tree, records[0]);
  }

  lemma FolderApplied(sha: Sha)
    ensures Applied(CaseSensitive, Folder(sha), Items(sha), sha) == Left(sha)
  {
    hide WriteAll, UnlinkAll, FileText, Items, RecordsOf, Texts, Record.Moves;
    var records, texts := RecordsOf(Items(sha), sha), Texts(Items(sha));
    RecordsAre(sha);
    WriteTwo(CaseSensitive, Folder(sha), records, texts);
    UnlinkTwo(CaseSensitive, WriteAll(CaseSensitive, Folder(sha), records, texts), records);
    PathNames();
  }

  lemma FolderOvertaken(sha: Sha)
    ensures !NoneOvertaken(CaseSensitive, Items(sha)) && !NoRespelling(CaseSensitive, Items(sha))
  {
    hide FileText, Body, OwnedTable, Casefold;
    ItemKeys(sha);
    PathNames();
    assert Overtaken(Items(sha), 1, 0);
  }

  /** Planning lists both files, finds two objects with two destinations and accepts; every check of the
      apply passes. Yet B's new file is removed as A's old one, while B's old file stays: the manifest
      names a file that is not there. */
  lemma CaseVariantIsOvertaken(sha: Sha)
    requires IsHash(sha)
    ensures IsListing(CaseSensitive, Folder(sha), FILES) && Stored(CaseSensitive, Folder(sha), FILES)
    ensures Plan(CaseSensitive, Folder(sha), FILES, REQUEST, sha) == Ok(Items(sha))
    ensures var records := RecordsOf(Items(sha), sha);
            && Stage(CaseSensitive, Folder(sha), records, 2, SqlServer, sha) == Ok(Texts(Items(sha)))
            && ApplyTree(CaseSensitive, Folder(sha), records, Texts(Items(sha))) == Left(sha)
            && !LosesNothing(CaseSensitive, records)
            && !ManifestHolds(CaseSensitive, Left(sha), EntriesOf(records), sha)
  {
    hide IsListing, Stored, Plan, Stage, ApplyTree, LosesNothing, NoneOvertaken, NoRespelling, Folder, Items, Texts,
         RecordsOf, IsHash;
    FolderIsListed(sha);
    FolderPlan(sha);
    FolderStaged(sha);
    FolderApplied(sha);
    FolderOvertaken(sha);
    OvertakenIsLost(CaseSensitive, Items(sha), sha);
    RecordsAre(sha);
    PathNames();
    assert EntriesOf(RecordsOf(Items(sha), sha))[0].path == LOWER;
  }

  lemma LeftIsListed(sha: Sha)
    ensures IsListing(CaseSensitive, Left(sha), [UPPER, OTHER])
  {
    hide Casefold, Less, IsSql, FileText;
    PathKeys();
    PathNames();
    PathsAreSql();
  }

  /** Planning what is left moves B's file once more: the folder is not at rest. */
  lemma CaseVariantIsNotFixed(sha: Sha)
    requires IsHash(sha)
    ensures IsListing(CaseSensitive, Left(sha), [UPPER, OTHER])
    ensures !FixedPointAt(CaseSensitive, Left(sha), [UPPER, OTHER], REQUEST, sha)
  {
    hide IsListing, Stored, Plan, Stage, Applied, NoneOvertaken, NoRespelling, Folder, Items, Texts, RecordsOf, IsHash,
         WellKeyed, FixedPointAt;
    FolderIsListed(sha);
    FolderPlan(sha);
    FolderStaged(sha);
    FolderApplied(sha);
    FolderOvertaken(sha);
    LeftIsListed(sha);
    ItemsAreTwo(sha);
    PlanningReachesFixedPoint(CaseSensitive, Folder(sha), FILES, REQUEST, sha, [UPPER, OTHER]);
  }

  lemma ItemsAreTwo(sha: Sha)
    ensures |Items(sha)| == 2
  {
  }
}
