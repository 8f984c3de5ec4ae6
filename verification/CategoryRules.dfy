/** Deterministic category rules: which categories claim an object, and the header that results. */
module CategoryRules {
  import opened Text
  import opened Json
  import opened ManagedHeader

  datatype CategoryRule = CategoryRule(
    name: string,
    description: string,
    exactNames: seq<string>,
    prefixes: seq<string>,
    schemas: seq<string>)

  /** The validator of a configured rule: its name is a safe path segment. */
  predicate ValidRules(rules: seq<CategoryRule>) {
    forall i :: 0 <= i < |rules| ==> IsSafeValue(rules[i].name)
  }

  datatype Match = Match(category: string, kind: string, description: string)

  function Kind(rule: CategoryRule, h: Header): Option<string> {
    var name := Upper(h.objectName);
    if exists i :: 0 <= i < |rule.exactNames| && Upper(rule.exactNames[i]) == name then Some("configured_exact")
    else if exists i :: 0 <= i < |rule.prefixes| && Starts(name, Upper(rule.prefixes[i])) then Some("configured_prefix")
    else if exists i :: 0 <= i < |rule.schemas| && Casefold(rule.schemas[i]) == Casefold(h.schemaName)
    then Some("configured_schema")
    else None
  }

  /** A dictionary entry: a category claimed before is overwritten where it stands. */
  function AddMatch(matches: seq<Match>, m: Match): seq<Match> {
    if matches == [] then [m]
    else if matches[0].category == m.category then [m] + matches[1..]
    else [matches[0]] + AddMatch(matches[1..], m)
  }

  function Matches(rules: seq<CategoryRule>, h: Header): seq<Match> {
    if rules == [] then [] else
    var rule := rules[|rules| - 1];
    var before := Matches(rules[..|rules| - 1], h);
    match Kind(rule, h)
    case None => before
    case Some(kind) => AddMatch(before, Match(rule.name, kind, rule.description))
  }

  // ----- Sorting -------------------------------------------------------------------------

  function Insert(x: string, sorted: seq<string>): seq<string> {
    if sorted == [] || !Less(sorted[0], x) then [x] + sorted else [sorted[0]] + Insert(x, sorted[1..])
  }

  function Sorted(items: seq<string>): seq<string> {
    if items == [] then [] else Insert(items[|items| - 1], Sorted(items[..|items| - 1]))
  }

  lemma {:induction false} LessIsStrict(a: string)
    ensures !Less(a, a)
  {
    if a != "" {
      LessIsStrict(a[1..]);
    }
  }

  lemma {:induction false} LessIsTotal(a: string, b: string)
    requires a != b
    ensures Less(a, b) || Less(b, a)
  {
    if a != "" && b != "" && a[0] == b[0] {
      assert a == [a[0]] + a[1..] && b == [b[0]] + b[1..];
      LessIsTotal(a[1..], b[1..]);
    }
  }

  lemma {:induction false} LessIsTransitive(a: string, b: string, c: string)
    requires Less(a, b) && Less(b, c)
    ensures Less(a, c)
  {
    if a != "" && a[0] == b[0] && b[0] == c[0] {
      LessIsTransitive(a[1..], b[1..], c[1..]);
    }
  }

  lemma {:induction false} InsertSorted(x: string, sorted: seq<string>)
    requires SortedUnique(sorted) && x !in sorted
    ensures SortedUnique(Insert(x, sorted))
    ensures multiset(Insert(x, sorted)) == multiset(sorted) + multiset{x}
  {
    hide Less;
    if sorted == [] {
    } else if !Less(sorted[0], x) {
      LessIsTotal(sorted[0], x);
      forall j | 0 <= j < |sorted|
        ensures Less(x, sorted[j])
      {
        if j > 0 {
          LessIsTransitive(x, sorted[0], sorted[j]);
        }
      }
    } else {
      var rest := Insert(x, sorted[1..]);
      InsertSorted(x, sorted[1..]);
      assert sorted == [sorted[0]] + sorted[1..];
      forall j | 0 <= j < |rest|
        ensures Less(sorted[0], rest[j])
      {
        assert rest[j] in multiset(rest);
        if rest[j] != x {
          assert rest[j] in sorted[1..];
        }
      }
    }
  }

  predicate Distinct<T(==)>(items: seq<T>) {
    forall i, j :: 0 <= i < j < |items| ==> items[i] != items[j]
  }

  /** Sorting distinct strings loses none and puts them in strict order. */
  lemma {:induction false} SortedIsSorted(items: seq<string>)
    requires Distinct(items)
    ensures SortedUnique(Sorted(items)) && multiset(Sorted(items)) == multiset(items)
  {
    if items != [] {
      var x, rest := items[|items| - 1], items[..|items| - 1];
      SortedIsSorted(rest);
      assert items == rest + [x];
      assert x !in multiset(rest);
      assert x !in multiset(Sorted(rest));
      InsertSorted(x, Sorted(rest));
    }
  }

  // ----- Classification ------------------------------------------------------------------

  function EvidenceOf(m: Match): string {
    "rule:" + m.kind + ":" + m.category
  }

  function EvidenceItems(matches: seq<Match>): (r: seq<string>)
    ensures |r| == |matches|
  {
    seq(|matches|, i requires 0 <= i < |matches| => EvidenceOf(matches[i]))
  }

  const INVALID_HEADER := "VALIDATION_ERROR"

  function Validated(h: Header): Result<Header> {
    if Valid(h) then Ok(h) else Err(INVALID_HEADER)
  }

  /** One claiming category confirms the header; none or several leave it as it is, with the
      evidence recorded and without validating it again. */
  function FromMatches(h: Header, matches: seq<Match>): Result<Header> {
    var evidence := Sorted(EvidenceItems(matches));
    if |matches| != 1 then Ok(h.(evidence := evidence))
    else
      var m := matches[0];
      Validated(h.(context := Some(m.category),
                   description := if m.description == "" then None else Some(m.description),
                   tags := [], evidence := evidence, status := Confirmed, source := Rule))
  }

  function Classify(h: Header, rules: Option<seq<CategoryRule>>): Result<Header> {
    if h.status == Confirmed || rules.None? then Ok(h) else FromMatches(h, Matches(rules.value, h))
  }

  method ClassifyWithRules(h: Header, rules: Option<seq<CategoryRule>>) returns (r: Result<Header>)
    ensures r == Classify(h, rules)
  {
    if h.status == Confirmed || rules.None? {
      return Ok(h);
    }
    var matches: seq<Match> := [];
    var categories := rules.value;
    for i := 0 to |categories|
      invariant matches == Matches(categories[..i], h)
    {
      var kind := Kind(categories[i], h);
      assert categories[..i + 1][..i] == categories[..i];
      if kind.Some? {
        matches := AddMatch(matches, Match(categories[i].name, kind.value, categories[i].description));
      }
    }
    assert categories[..|categories|] == categories;
    return FromMatches(h, matches);
  }

  // ----- Properties ----------------------------------------------------------------------

  /** Everything the rules look at is the identity, which they never change. */
  lemma {:induction false} MatchesSame(rules: seq<CategoryRule>, h: Header, h': Header)
    requires h.objectName == h'.objectName && h.schemaName == h'.schemaName
    ensures Matches(rules, h) == Matches(rules, h')
  {
    if rules != [] {
      MatchesSame(rules[..|rules| - 1], h, h');
    }
  }

  /** Classification never changes the identity, the engine or the content hash. */
  lemma ClassifyKeeps(h: Header, rules: Option<seq<CategoryRule>>)
    requires Classify(h, rules).Ok?
    ensures var h' := Classify(h, rules).value;
            && h'.objectId == h.objectId && h'.schemaName == h.schemaName && h'.objectName == h.objectName
            && h'.objectType == h.objectType && h'.engine == h.engine && h'.contentHash == h.contentHash
            && h'.sourceFingerprint == h.sourceFingerprint
  {
    hide Matches, Sorted, EvidenceItems, Valid;
  }

  /** Classifying a classified header changes nothing. */
  lemma ClassifyIdempotent(h: Header, rules: Option<seq<CategoryRule>>)
    requires Classify(h, rules).Ok?
    ensures var h' := Classify(h, rules).value; Classify(h', rules) == Ok(h')
  {
    hide Matches, Sorted, EvidenceItems, Valid;
    var h' := Classify(h, rules).value;
    if h.status != Confirmed && rules.Some? {
      MatchesSame(rules.value, h, h');
    }
  }

  predicate IsKind(kind: string) {
    kind == "configured_exact" || kind == "configured_prefix" || kind == "configured_schema"
  }

  predicate WellFormed(matches: seq<Match>) {
    && (forall i, j :: 0 <= i < j < |matches| ==> matches[i].category != matches[j].category)
    && (forall i :: 0 <= i < |matches| ==> IsSafeValue(matches[i].category) && IsKind(matches[i].kind))
  }

  lemma {:induction false} AddMatchWellFormed(matches: seq<Match>, m: Match)
    requires WellFormed(matches) && IsSafeValue(m.category) && IsKind(m.kind)
    ensures WellFormed(AddMatch(matches, m))
    ensures forall k :: 0 <= k < |AddMatch(matches, m)| ==>
      AddMatch(matches, m)[k] == m || AddMatch(matches, m)[k] in matches
  {
    hide IsSafeValue, IsKind;
    if matches != [] && matches[0].category != m.category {
      AddMatchWellFormed(matches[1..], m);
    }
  }

  lemma {:induction false} MatchesWellFormed(rules: seq<CategoryRule>, h: Header)
    requires ValidRules(rules)
    ensures WellFormed(Matches(rules, h))
  {
    hide IsSafeValue, WellFormed;
    if rules == [] {
      assert WellFormed(Matches(rules, h)) by {
        EmptyWellFormed();
      }
    } else {
      var rule := rules[|rules| - 1];
      MatchesWellFormed(rules[..|rules| - 1], h);
      if Kind(rule, h).Some? {
        AddMatchWellFormed(Matches(rules[..|rules| - 1], h),
                           Match(rule.name, Kind(rule, h).value, rule.description));
      }
    }
  }

  lemma EmptyWellFormed()
    ensures WellFormed([])
  {
  }

  /** The text after the last colon. */
  function AfterColon(s: string): string {
    if s == "" then ""
    else if s[|s| - 1] == ':' then ""
    else AfterColon(s[..|s| - 1]) + [s[|s| - 1]]
  }

  lemma {:induction false} AfterColonOf(prefix: string, name: string)
    requires forall i :: 0 <= i < |name| ==> name[i] != ':'
    ensures AfterColon(prefix + ":" + name) == name
  {
    var s := prefix + ":" + name;
    if name != "" {
      var init := name[..|name| - 1];
      assert s[..|s| - 1] == prefix + ":" + init;
      AfterColonOf(prefix, init);
      assert name == init + [name[|name| - 1]];
    }
  }

  lemma EvidenceCategory(m: Match)
    requires IsSafeValue(m.category)
    ensures AfterColon(EvidenceOf(m)) == m.category
  {
    assert forall i :: 0 <= i < |m.category| ==> IsSafeChar(m.category[i]);
    AfterColonOf("rule:" + m.kind, m.category);
  }

  lemma EvidenceSingleLine(m: Match)
    requires IsSafeValue(m.category) && IsKind(m.kind)
    ensures IsSingleLine(EvidenceOf(m))
  {
    KindSingleLine(m.kind);
    assert forall i :: 0 <= i < |m.category| ==> IsSafeChar(m.category[i]);
    SingleLineJoin(m.kind, m.category);
  }

  lemma KindSingleLine(kind: string)
    requires IsKind(kind)
    ensures IsSingleLine(kind)
  {
  }

  lemma SingleLineJoin(kind: string, category: string)
    requires IsSingleLine(kind)
    requires forall i :: 0 <= i < |category| ==> IsSafeChar(category[i])
    ensures IsSingleLine("rule:" + kind + ":" + category)
  {
  }

  /** The recorded evidence is always what the header's validator asks for, except that it may be
      too long. */
  lemma EvidenceValid(matches: seq<Match>)
    requires WellFormed(matches)
    ensures var evidence := Sorted(EvidenceItems(matches));
            && |evidence| == |matches| && SortedUnique(evidence)
            && forall k :: 0 <= k < |evidence| ==> IsSingleLine(evidence[k])
  {
    hide IsSafeValue, IsKind, EvidenceOf, AfterColon, Sorted, SortedUnique, IsSingleLine;
    var items := EvidenceItems(matches);
    forall i, j | 0 <= i < j < |items|
      ensures items[i] != items[j]
    {
      EvidenceCategory(matches[i]);
      EvidenceCategory(matches[j]);
    }
    SortedIsSorted(items);
    var evidence := Sorted(items);
    assert |multiset(evidence)| == |multiset(items)|;
    forall k | 0 <= k < |evidence|
      ensures IsSingleLine(evidence[k])
    {
      assert evidence[k] in multiset(items);
      var i :| 0 <= i < |items| && items[i] == evidence[k];
      EvidenceSingleLine(matches[i]);
    }
  }

  /** How many categories claim an object that is still unresolved. */
  function ClaimCount(h: Header, rules: Option<seq<CategoryRule>>): nat {
    if h.status == Confirmed || rules.None? then 0 else |Matches(rules.value, h)|
  }

  /** A classified header is valid exactly when at most 64 categories claim the object: more of
      them leave an evidence list that the header format refuses. */
  lemma ClassifiedValid(h: Header, rules: Option<seq<CategoryRule>>)
    requires Valid(h) && (rules.Some? ==> ValidRules(rules.value)) && Classify(h, rules).Ok?
    ensures Valid(Classify(h, rules).value) <==> ClaimCount(h, rules) <= 64
  {
    hide Matches, Sorted, EvidenceItems, WellFormed, ValidRules, IsSafeValue, IsSha256, SortedUnique, IsSingleLine;
    if h.status != Confirmed && rules.Some? {
      MatchesWellFormed(rules.value, h);
      EvidenceValid(Matches(rules.value, h));
    }
  }

  // ----- Which category an object gets ---------------------------------------------------

  /** The rule claims the object: by its name, by the beginning of its name, or by its schema, in any case. */
  predicate ClaimsObject(rule: CategoryRule, h: Header) {
    || (exists i :: 0 <= i < |rule.exactNames| && Upper(rule.exactNames[i]) == Upper(h.objectName))
    || (exists i :: 0 <= i < |rule.prefixes| && Upper(rule.prefixes[i]) <= Upper(h.objectName))
    || (exists i :: 0 <= i < |rule.schemas| && Casefold(rule.schemas[i]) == Casefold(h.schemaName))
  }

  lemma KindClaims(rule: CategoryRule, h: Header)
    ensures Kind(rule, h).Some? <==> ClaimsObject(rule, h)
  {
    hide Upper, Casefold;
    forall i | 0 <= i < |rule.prefixes|
      ensures Starts(Upper(h.objectName), Upper(rule.prefixes[i])) <==> Upper(rule.prefixes[i]) <= Upper(h.objectName)
    {
    }
  }

  /** Some rule of this name claims the object. */
  predicate Claimed(rules: seq<CategoryRule>, h: Header, name: string) {
    exists i :: 0 <= i < |rules| && rules[i].name == name && ClaimsObject(rules[i], h)
  }

  predicate Matched(matches: seq<Match>, name: string) {
    exists k :: 0 <= k < |matches| && matches[k].category == name
  }

  predicate OnePerCategory(matches: seq<Match>) {
    forall j, k :: 0 <= j < k < |matches| ==> matches[j].category != matches[k].category
  }

  lemma {:induction false} AddMatchMatches(matches: seq<Match>, m: Match, name: string)
    requires OnePerCategory(matches)
    ensures OnePerCategory(AddMatch(matches, m))
    ensures Matched(AddMatch(matches, m), name) <==> name == m.category || Matched(matches, name)
  {
    if matches == [] {
      assert [m][0] == m;
    } else if matches[0].category == m.category {
      assert ([m] + matches[1..])[0] == m;
      assert Matched(matches, name) && name != m.category ==> Matched([m] + matches[1..], name) by {
        if Matched(matches, name) && name != m.category {
          var k :| 0 <= k < |matches| && matches[k].category == name;
          assert ([m] + matches[1..])[k].category == name;
        }
      }
    } else {
      AddMatchMatches(matches[1..], m, name);
      AddMatchRest(matches, m, name);
    }
  }

  lemma AddMatchRest(matches: seq<Match>, m: Match, name: string)
    requires matches != [] && matches[0].category != m.category && OnePerCategory(matches)
    requires OnePerCategory(AddMatch(matches[1..], m))
    requires Matched(AddMatch(matches[1..], m), name) <==> name == m.category || Matched(matches[1..], name)
    ensures OnePerCategory(AddMatch(matches, m))
    ensures Matched(AddMatch(matches, m), name) <==> name == m.category || Matched(matches, name)
  {
    hide AddMatch;
    var rest := AddMatch(matches[1..], m);
    var after := [matches[0]] + rest;
    assert AddMatch(matches, m) == after by {
      AddMatchUnfold(matches, m);
    }
    MatchedCons(matches[0], rest, name);
    MatchedCons(matches[0], matches[1..], name);
    assert matches == [matches[0]] + matches[1..];
    AddMatchCategories(matches[1..], m);
    forall k | 0 <= k < |rest| ensures rest[k].category != matches[0].category {
      if rest[k].category != m.category {
        var j :| 0 <= j < |matches[1..]| && matches[1..][j].category == rest[k].category;
        assert matches[1..][j] == matches[j + 1];
      }
    }
  }

  lemma AddMatchUnfold(matches: seq<Match>, m: Match)
    requires matches != [] && matches[0].category != m.category
    ensures AddMatch(matches, m) == [matches[0]] + AddMatch(matches[1..], m)
  {
  }

  lemma {:induction false} AddMatchCategories(matches: seq<Match>, m: Match)
    ensures forall k :: 0 <= k < |AddMatch(matches, m)| ==>
              AddMatch(matches, m)[k].category == m.category ||
              exists j :: 0 <= j < |matches| && matches[j].category == AddMatch(matches, m)[k].category
  {
    var after := AddMatch(matches, m);
    if matches != [] && matches[0].category != m.category {
      AddMatchCategories(matches[1..], m);
      forall k | 0 <= k < |after| && after[k].category != m.category
        ensures exists j :: 0 <= j < |matches| && matches[j].category == after[k].category
      {
        if k > 0 {
          assert after[k] == AddMatch(matches[1..], m)[k - 1];
          var j :| 0 <= j < |matches[1..]| && matches[1..][j].category == after[k].category;
          assert matches[j + 1] == matches[1..][j];
        }
      }
    } else if matches != [] {
      forall k | 0 <= k < |after| && after[k].category != m.category
        ensures exists j :: 0 <= j < |matches| && matches[j].category == after[k].category
      {
        assert after[k] == matches[k];
      }
    }
  }

  lemma MatchedCons(first: Match, rest: seq<Match>, name: string)
    ensures Matched([first] + rest, name) <==> first.category == name || Matched(rest, name)
  {
    var all := [first] + rest;
    assert all[0] == first;
    forall k | 0 <= k < |rest| ensures all[k + 1] == rest[k] {
    }
  }

  /** The categories matched are the names of the rules that claim the object, each once. */
  lemma {:induction false} MatchesAre(rules: seq<CategoryRule>, h: Header, name: string)
    ensures OnePerCategory(Matches(rules, h))
    ensures Matched(Matches(rules, h), name) <==> Claimed(rules, h, name)
  {
    hide AddMatch, Kind, ClaimsObject, OnePerCategory;
    if rules == [] {
      NothingMatched(name);
    } else {
      var n := |rules| - 1;
      MatchesAre(rules[..n], h, name);
      KindClaims(rules[n], h);
      ClaimedNext(rules, h, name);
      if Kind(rules[n], h).Some? {
        AddMatchMatches(Matches(rules[..n], h), Match(rules[n].name, Kind(rules[n], h).value, rules[n].description),
                        name);
      }
    }
  }

  lemma NothingMatched(name: string)
    ensures OnePerCategory([]) && !Matched([], name)
  {
  }

  lemma ClaimedNext(rules: seq<CategoryRule>, h: Header, name: string)
    requires rules != []
    ensures var n := |rules| - 1;
            Claimed(rules, h, name) <==>
            Claimed(rules[..n], h, name) || (rules[n].name == name && ClaimsObject(rules[n], h))
  {
    hide ClaimsObject;
    var n := |rules| - 1;
    if Claimed(rules[..n], h, name) {
      var i :| 0 <= i < n && rules[..n][i].name == name && ClaimsObject(rules[..n][i], h);
      assert rules[i] == rules[..n][i];
    }
    if Claimed(rules, h, name) && !(rules[n].name == name && ClaimsObject(rules[n], h)) {
      var i :| 0 <= i < |rules| && rules[i].name == name && ClaimsObject(rules[i], h);
      assert rules[..n][i] == rules[i];
    }
  }

  /** An unresolved object is confirmed under a category exactly when some rule of that name claims it and every
      rule that claims it has that name; otherwise it stays unresolved. */
  lemma ConfirmedExactly(h: Header, rules: seq<CategoryRule>, name: string)
    requires h.status == Unresolved && Classify(h, Some(rules)).Ok?
    ensures var c := Classify(h, Some(rules)).value;
            && (c.status == Confirmed && c.context == Some(name) <==>
                  && Claimed(rules, h, name)
                  && forall i :: 0 <= i < |rules| && ClaimsObject(rules[i], h) ==> rules[i].name == name)
            && (c.status == Confirmed ==> c.source == Rule && c.context.Some? && c.tags == [])
            && (c.status != Confirmed ==>
                  c.status == Unresolved && c.context == h.context && c.source == h.source && c.tags == h.tags)
  {
    hide Matches, Sorted, EvidenceItems, Valid, ClaimsObject, Claimed;
    var matches := Matches(rules, h);
    MatchesAre(rules, h, name);
    forall i | 0 <= i < |rules| && ClaimsObject(rules[i], h) ensures Matched(matches, rules[i].name) {
      MatchesAre(rules, h, rules[i].name);
      ClaimedAt(rules, h, i);
    }
    forall k | 0 <= k < |matches| ensures Claimed(rules, h, matches[k].category) {
      MatchesAre(rules, h, matches[k].category);
    }
    SoleCategory(matches, rules, h, name);
  }

  lemma ClaimedAt(rules: seq<CategoryRule>, h: Header, i: nat)
    requires i < |rules| && ClaimsObject(rules[i], h)
    ensures Claimed(rules, h, rules[i].name)
  {
  }

  lemma SoleCategory(matches: seq<Match>, rules: seq<CategoryRule>, h: Header, name: string)
    requires OnePerCategory(matches) && (Matched(matches, name) <==> Claimed(rules, h, name))
    requires forall i :: 0 <= i < |rules| && ClaimsObject(rules[i], h) ==> Matched(matches, rules[i].name)
    requires forall k :: 0 <= k < |matches| ==> Claimed(rules, h, matches[k].category)
    ensures |matches| == 1 && matches[0].category == name <==>
            && Claimed(rules, h, name)
            && forall i :: 0 <= i < |rules| && ClaimsObject(rules[i], h) ==> rules[i].name == name
  {
    hide ClaimsObject;
    if |matches| > 1 {
      assert matches[0].category != matches[1].category;
    }
    if Claimed(rules, h, name) && forall i :: 0 <= i < |rules| && ClaimsObject(rules[i], h) ==> rules[i].name == name {
      var k :| 0 <= k < |matches| && matches[k].category == name;
      forall j | 0 <= j < |matches| ensures matches[j].category == name {
        assert Claimed(rules, h, matches[j].category);
      }
    }
    if |matches| == 1 && matches[0].category == name {
      assert Matched(matches, name);
    }
  }

  /** A rule's entry stands after it was added, and so do those of other categories. */
  lemma {:induction false} AddMatchKeeps(matches: seq<Match>, m: Match, x: Match)
    requires x == m || (x in matches && x.category != m.category)
    ensures x in AddMatch(matches, m)
  {
    if matches == [] {
    } else if matches[0].category == m.category {
      assert x == m || x in matches[1..];
    } else if x != matches[0] {
      AddMatchKeeps(matches[1..], m, x);
      AddMatchUnfold(matches, m);
    }
  }

  /** No later rule of that name claims the object. */
  predicate LastClaim(rules: seq<CategoryRule>, h: Header, i: nat)
    requires i < |rules|
  {
    && ClaimsObject(rules[i], h)
    && forall j :: i < j < |rules| && rules[j].name == rules[i].name ==> !ClaimsObject(rules[j], h)
  }

  /** How a rule claims an object: by name before prefix before schema. */
  function ClaimText(rule: CategoryRule, h: Header): string {
    if exists i :: 0 <= i < |rule.exactNames| && Upper(rule.exactNames[i]) == Upper(h.objectName)
    then "configured_exact"
    else if exists i :: 0 <= i < |rule.prefixes| && Upper(rule.prefixes[i]) <= Upper(h.objectName)
    then "configured_prefix"
    else "configured_schema"
  }

  lemma KindIs(rule: CategoryRule, h: Header)
    requires ClaimsObject(rule, h)
    ensures Kind(rule, h) == Some(ClaimText(rule, h))
  {
    hide Upper, Casefold;
    forall i | 0 <= i < |rule.prefixes|
      ensures Starts(Upper(h.objectName), Upper(rule.prefixes[i])) <==> Upper(rule.prefixes[i]) <= Upper(h.objectName)
    {
    }
  }

  lemma {:induction false} LastClaimMatches(rules: seq<CategoryRule>, h: Header, i: nat)
    requires i < |rules| && LastClaim(rules, h, i)
    ensures Match(rules[i].name, ClaimText(rules[i], h), rules[i].description) in Matches(rules, h)
  {
    hide AddMatch, Kind, ClaimsObject, ClaimText;
    var n := |rules| - 1;
    var x := Match(rules[i].name, ClaimText(rules[i], h), rules[i].description);
    KindClaims(rules[n], h);
    if i == n {
      KindIs(rules[n], h);
      AddMatchKeeps(Matches(rules[..n], h), x, x);
    } else {
      LastClaimMatches(rules[..n], h, i);
      if Kind(rules[n], h).Some? {
        AddMatchKeeps(Matches(rules[..n], h), Match(rules[n].name, Kind(rules[n], h).value, rules[n].description), x);
      }
    }
  }

  /** A confirmed object has the description of the last rule that claims it, and one piece of evidence: how that
      rule does. */
  lemma ConfirmedAs(h: Header, rules: seq<CategoryRule>, i: nat)
    requires h.status == Unresolved && i < |rules| && LastClaim(rules, h, i)
    requires Classify(h, Some(rules)).Ok? && Classify(h, Some(rules)).value.status == Confirmed
    ensures var c := Classify(h, Some(rules)).value;
            && c.context == Some(rules[i].name)
            && c.description == (if rules[i].description == "" then None else Some(rules[i].description))
            && c.evidence == ["rule:" + ClaimText(rules[i], h) + ":" + rules[i].name]
  {
    hide Matches, Valid, ClaimText, LastClaim;
    LastClaimMatches(rules, h, i);
    var matches := Matches(rules, h);
    var m := Match(rules[i].name, ClaimText(rules[i], h), rules[i].description);
    assert matches == [m];
    assert EvidenceItems(matches) == [EvidenceOf(m)];
    OneSorted(EvidenceOf(m));
  }

  lemma OneSorted(x: string)
    ensures Sorted([x]) == [x]
  {
    assert [x][..0] == [];
  }
}
