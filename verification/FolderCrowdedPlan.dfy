/** A folder with one table that every category rule claims. Its plan is always accepted; it can be applied
    as long as there are at most 64 rules. */
module FolderCrowdedPlan {
  import opened Text
  import opened FileTree
  import opened Declarations
  import opened ManagedHeader
  import opened CategoryRules
  import opened FolderPlanning
  import opened FolderApply
  import opened FolderCaseVariants

  const PATH := "A.sql"
  const DESTINATION := "unknowns/tables/A.sql"

  /** As many safe names as are needed: a letter and a digit. */
  function CategoryName(i: nat): string
    requires i < 260
  {
    ['a' + (i / 10) as char, '0' + (i % 10) as char]
  }

  /** Rules whose empty prefix every name starts with. */
  function Rules(n: nat): (r: seq<CategoryRule>)
    requires n <= 260
    ensures |r| == n
  {
    seq(n, i requires 0 <= i < n => CategoryRule(CategoryName(i), "", [], [""], []))
  }

  function Claims(n: nat): (r: seq<Match>)
    requires n <= 260
    ensures |r| == n
  {
    seq(n, i requires 0 <= i < n => Match(CategoryName(i), "configured_prefix", ""))
  }

  lemma NamesAreSafe(n: nat)
    requires n <= 260
    ensures ValidRules(Rules(n))
  {
  }

  lemma NamesDiffer(i: nat, j: nat)
    requires i < j < 260
    ensures CategoryName(i) != CategoryName(j)
  {
    var a, b := CategoryName(i), CategoryName(j);
    assert a[0] != b[0] || a[1] != b[1];
  }

  lemma {:induction false} AddFresh(matches: seq<Match>, m: Match)
    requires forall i :: 0 <= i < |matches| ==> matches[i].category != m.category
    ensures AddMatch(matches, m) == matches + [m]
  {
    if matches != [] {
      AddFresh(matches[1..], m);
      assert matches + [m] == [matches[0]] + (matches[1..] + [m]);
    }
  }

  lemma {:induction false} EveryRuleClaims(n: nat, h: Header)
    requires n <= 260
    ensures Matches(Rules(n), h) == Claims(n)
  {
    hide CategoryName;
    if n > 0 {
      EveryRuleClaims(n - 1, h);
      assert Rules(n)[..n - 1] == Rules(n - 1);
      LastRuleClaims(n, h);
      var before, last := Claims(n - 1), Match(CategoryName(n - 1), "configured_prefix", "");
      forall i | 0 <= i < |before| ensures before[i].category != last.category {
        NamesDiffer(i, n - 1);
      }
      AddFresh(before, last);
      assert Claims(n) == before + [last];
    }
  }

  lemma LastRuleClaims(n: nat, h: Header)
    requires 0 < n <= 260
    ensures Kind(Rules(n)[n - 1], h) == Some("configured_prefix")
  {
    hide CategoryName;
    var rule := Rules(n)[n - 1];
    assert Upper(rule.prefixes[0]) == "";
    assert Upper(h.objectName)[..0] == "";
  }

  // ----- The file ------------------------------------------------------------------------

  /** What adopting the table's file makes of it. */
  function Adopted(sha: Sha): Header {
    Header(ObjectId(Table, "dbo", "A"), SqlServer, "dbo", "A", Table, None, None, [], [], Unresolved, Unknown, None,
           sha(Body("A")))
  }

  function Crowded(n: nat, sha: Sha): Header
    requires n <= 260
  {
    Adopted(sha).(evidence := Sorted(EvidenceItems(Claims(n))))
  }

  function Request(n: nat): PlanRequest
    requires n <= 260
  {
    PlanRequest(SqlServer, Some(Rules(n)), true, map[])
  }

  function Item(n: nat, sha: Sha): Planned
    requires n <= 260
  {
    Planned(PATH, Body("A"), Crowded(n, sha), Body("A"), DESTINATION)
  }

  function OneFile(fs: FileSystem): Tree {
    map[Key(fs, PATH) := File(PATH, Body("A"))]
  }

  lemma NotManaged()
    ensures Parse(Body("A")) == Err(HEADER_MISSING)
  {
    assert Body("A")[0] == 'C';
    assert HEADER_PREFIX[0] == '-';
  }

  lemma TableIsAdopted(sha: Sha)
    requires IsHash(sha)
    ensures ReadIdentity(Body("A"), SqlServer, sha) == Ok((Adopted(sha), Body("A")))
    ensures ReadText(Body("A")) == Body("A")
  {
    hide Parse, DetectIdentity, Body, IsSha256, NoReturn, UniversalNewlines;
    NotManaged();
    BodyIsTable("A", "other");
    BodyIsText("A", "other");
    BodyStarts();
    NewlinesUnified(Body("A"));
    assert IsSha256(sha(Body("A")));
  }

  lemma BodyStarts()
    ensures Body("A") != "" && Body("A")[0] == 'C'
  {
  }

  lemma FileIsPlannable(n: nat, sha: Sha)
    requires 1 < n <= 260 && IsHash(sha)
    ensures PlanFile(PATH, Body("A"), Request(n), None, sha) == Ok(Item(n, sha))
  {
    hide Body, ReadIdentity, Matches, Claims, Rules, Sorted, EvidenceItems, Name, IsHash;
    TableIsAdopted(sha);
    EveryRuleClaims(n, Adopted(sha));
    PathName();
    assert Destination(Crowded(n, sha), PATH) == DESTINATION;
  }

  lemma PathName()
    ensures Name(PATH) == PATH
  {
    NameOfPlain(PATH);
  }

  lemma {:induction false} NameOfPlain(name: string)
    requires HasNoSlash(name)
    ensures Name(name) == name
  {
    if name != "" {
      NameOfPlain(name[..|name| - 1]);
      assert name == name[..|name| - 1] + [name[|name| - 1]];
    }
  }

  // ----- The plan ------------------------------------------------------------------------

  lemma FileIsListed(fs: FileSystem)
    ensures IsListing(fs, OneFile(fs), [PATH]) && Stored(fs, OneFile(fs), [PATH])
    ensures WellKeyed(fs, OneFile(fs))
  {
    hide Body, Less, Casefold, IsSql;
    PathIsSql(fs);
  }

  lemma PathIsSql(fs: FileSystem)
    ensures IsSql(fs, PATH)
  {
    assert Casefold(PATH)[1..] == ".sql";
    assert PATH[1..] == ".sql";
  }

  lemma NothingResolved(n: nat)
    requires n <= 260
    ensures ResolutionFor([PATH], 0, Request(n).resolutions) == None
  {
    hide Rules;
  }

  lemma ContentIsBody(fs: FileSystem, sha: Sha)
    requires IsHash(sha)
    ensures Key(fs, PATH) in OneFile(fs) && Content(fs, OneFile(fs), PATH) == Body("A")
  {
    hide Body, ReadText, IsHash, ReadIdentity;
    TableIsAdopted(sha);
  }

  lemma FolderIsPlanned(fs: FileSystem, n: nat, sha: Sha)
    requires 1 < n <= 260 && IsHash(sha)
    ensures Stored(fs, OneFile(fs), [PATH])
    ensures Plan(fs, OneFile(fs), [PATH], Request(n), sha) == Ok([Item(n, sha)])
  {
    hide Body, PlanFile, Content, Item, Request, IsHash, OneFile, ResolutionFor, Finish, PlanFirst, Key, IdentityKey,
         DestinationKey, IsListing;
    FileIsListed(fs);
    ContentIsBody(fs, sha);
    NothingResolved(n);
    FileIsPlannable(n, sha);
    assert PlannedFrom(fs, OneFile(fs), [PATH], 1, Request(n), sha, [Item(n, sha)]);
    PlanFirstIs(fs, OneFile(fs), [PATH], 1, Request(n), sha, [Item(n, sha)]);
    NoCollision(n, sha);
  }

  lemma NoCollision(n: nat, sha: Sha)
    requires n <= 260
    ensures Finish([PATH], [Item(n, sha)], Request(n)) == Ok([Item(n, sha)])
  {
    hide Body, Crowded, Rules, Casefold;
  }

  lemma ClaimsOfItem(n: nat, sha: Sha)
    requires 1 < n <= 260 && IsHash(sha)
    ensures FewClaims(Item(n, sha), Request(n), sha) <==> n <= 64
  {
    hide Body, ReadIdentity, Matches, Claims, Rules, Crowded, IsHash;
    TableIsAdopted(sha);
    EveryRuleClaims(n, Adopted(sha));
  }

  /** Every such plan is accepted; up to 64 rules it also passes the checks of the apply, and from 65 on it is
      refused for the header it has stored. */
  lemma CrowdedPlan(fs: FileSystem, n: nat, sha: Sha)
    requires 1 < n <= 260 && IsHash(sha)
    ensures IsListing(fs, OneFile(fs), [PATH]) && Stored(fs, OneFile(fs), [PATH])
    ensures Plan(fs, OneFile(fs), [PATH], Request(n), sha) == Ok([Item(n, sha)])
    ensures var staged := Stage(fs, OneFile(fs), RecordsOf([Item(n, sha)], sha), 1, SqlServer, sha);
            staged == if n <= 64 then Ok([Item(n, sha).Rendered()]) else Err(INVALID_HEADER)
  {
    hide IsListing, Stored, Plan, Stage, OneFile, Item, RecordsOf, FewClaims, IsHash, ResolutionFor, Rules,
         Planned.Rendered, ValidRules;
    FileIsListed(fs);
    FolderIsPlanned(fs, n, sha);
    NamesAreSafe(n);
    StagedFromPlan(fs, OneFile(fs), [PATH], Request(n), sha);
    ClaimsOfItem(n, sha);
    NothingResolved(n);
    var items := [Item(n, sha)];
    assert items[0] == Item(n, sha);
    assert Texts(items) == [Item(n, sha).Rendered()];
  }
}
