/** Which files a deployment plan takes, and which it passes over. */
module DeploymentPlans {
  import opened Text
  import opened Declarations
  import opened ManagedHeader
  import opened RoutineDeploy

  /** In a folder, what is no SQL file and managed tables are passed over; a file asked for by name never is. */
  predicate PassedOver(file: SourceFile, single: bool) {
    && !single
    && (file.text.None? || !HasSqlSuffix(file.path) ||
        (Parse(file.text.value).Ok? && Parse(file.text.value).value.0.objectType == Table))
  }

  lemma FilePassedOver(file: SourceFile, single: bool, profile: Profile, sha: Sha)
    ensures PlanItem(file, single, profile, sha) == Ok(None) <==> PassedOver(file, single)
  {
    hide Parse, HasSqlSuffix, CheckedStatement;
  }

  predicate OneEach(items: seq<Item>) {
    forall i, j :: 0 <= i < j < |items| ==> Casefold(items[i].objectId) != Casefold(items[j].objectId)
  }

  /** The items are those of the files at these places, in order, and every other file is passed over. */
  predicate TakenFrom(items: seq<Item>, files: seq<SourceFile>, at: seq<nat>, single: bool, profile: Profile, sha: Sha)
  {
    && |at| == |items|
    && (forall k :: 0 <= k < |at| ==> at[k] < |files|)
    && (forall j, k :: 0 <= j < k < |at| ==> at[j] < at[k])
    && (forall k :: 0 <= k < |at| && at[k] < |files| ==> ItemOf(items[k], files[at[k]], profile, sha))
    && (forall i: nat :: i < |files| && i !in at ==> PassedOver(files[i], single))
  }

  lemma NothingTaken(single: bool, profile: Profile, sha: Sha)
    ensures TakenFrom([], [], [], single, profile, sha) && OneEach([])
  {
  }

  lemma TakenPassing(items: seq<Item>, files: seq<SourceFile>, at: seq<nat>, single: bool, profile: Profile, sha: Sha,
                     last: SourceFile)
    requires TakenFrom(items, files, at, single, profile, sha) && PassedOver(last, single)
    ensures TakenFrom(items, files + [last], at, single, profile, sha)
  {
    hide ItemOf, PassedOver;
  }

  lemma TakenNext(items: seq<Item>, files: seq<SourceFile>, at: seq<nat>, single: bool, profile: Profile, sha: Sha,
                  last: SourceFile, item: Item)
    requires TakenFrom(items, files, at, single, profile, sha) && ItemOf(item, last, profile, sha)
    ensures TakenFrom(items + [item], files + [last], at + [|files|], single, profile, sha)
  {
    hide ItemOf, PassedOver;
    var all := at + [|files|];
    forall i: nat | i < |files + [last]| && i !in all ensures PassedOver((files + [last])[i], single) {
      assert all[|at|] == |files|;
      assert i !in at;
    }
  }

  lemma OneMore(items: seq<Item>, item: Item)
    requires OneEach(items)
    ensures OneEach(items + [item]) <==> !Claims(items, item.objectId)
  {
    hide Casefold;
    var all := items + [item];
    if !OneEach(all) {
      var i, j :| 0 <= i < j < |all| && Casefold(all[i].objectId) == Casefold(all[j].objectId);
      assert j == |items|;
      assert items[i] == all[i];
    }
    if Claims(items, item.objectId) {
      var i :| 0 <= i < |items| && Casefold(items[i].objectId) == Casefold(item.objectId);
      assert all[i] == items[i] && all[|items|] == item;
    }
  }

  /** What planning takes is what the files give. */
  lemma {:induction false} PlannedAreTaken(files: seq<SourceFile>, single: bool, profile: Profile, sha: Sha)
    returns (at: seq<nat>)
    requires PlanItems(files, single, profile, sha).Ok?
    ensures var items := PlanItems(files, single, profile, sha).value;
            TakenFrom(items, files, at, single, profile, sha) && OneEach(items)
  {
    hide PlanItem, ItemOf, PassedOver, TakenFrom, OneEach, Claims;
    if files == [] {
      at := [];
      NothingTaken(single, profile, sha);
    } else {
      var init, last := files[..|files| - 1], files[|files| - 1];
      at := PlannedAreTaken(init, single, profile, sha);
      var items := PlanItems(init, single, profile, sha).value;
      var planned := PlanItem(last, single, profile, sha).value;
      assert files == init + [last];
      if planned.None? {
        FilePassedOver(last, single, profile, sha);
        TakenPassing(items, init, at, single, profile, sha, last);
      } else {
        PlannedFromFile(last, single, profile, sha, planned.value);
        TakenNext(items, init, at, single, profile, sha, last, planned.value);
        OneMore(items, planned.value);
        at := at + [|init|];
      }
    }
  }

  lemma TakenBefore(items: seq<Item>, files: seq<SourceFile>, at: seq<nat>, single: bool, profile: Profile, sha: Sha)
    requires files != [] && TakenFrom(items, files, at, single, profile, sha)
    ensures var n, m := |files| - 1, |at| - 1;
            if |files| - 1 in at
            then m >= 0 && TakenFrom(items[..m], files[..n], at[..m], single, profile, sha)
                 && ItemOf(items[m], files[n], profile, sha)
            else TakenFrom(items, files[..n], at, single, profile, sha) && PassedOver(files[n], single)
  {
    hide ItemOf, PassedOver;
    var n := |files| - 1;
    if n in at {
      var m := |at| - 1;
      assert at[m] == n;
      assert at == at[..m] + [n];
    } else {
      forall k | 0 <= k < |at| ensures at[k] < n {
        assert at[k] in at;
      }
    }
  }

  /** And whatever the files give is planned. */
  lemma {:induction false} TakenArePlanned(items: seq<Item>, files: seq<SourceFile>, at: seq<nat>, single: bool,
                                           profile: Profile, sha: Sha)
    requires TakenFrom(items, files, at, single, profile, sha) && OneEach(items)
    ensures PlanItems(files, single, profile, sha) == Ok(items)
    decreases |files|
  {
    hide PlanItem, ItemOf, PassedOver, OneEach, Claims;
    if files == [] {
    } else {
      var n := |files| - 1;
      TakenBefore(items, files, at, single, profile, sha);
      if n in at {
        var m := |at| - 1;
        OneEachBefore(items, m);
        TakenArePlanned(items[..m], files[..n], at[..m], single, profile, sha);
        PlannedFromFile(files[n], single, profile, sha, items[m]);
        assert items == items[..m] + [items[m]];
        OneMore(items[..m], items[m]);
      } else {
        TakenArePlanned(items, files[..n], at, single, profile, sha);
        FilePassedOver(files[n], single, profile, sha);
      }
    }
  }

  lemma OneEachBefore(items: seq<Item>, m: nat)
    requires OneEach(items) && m <= |items|
    ensures OneEach(items[..m])
  {
  }

  /** A plan is made exactly when folder and profile are of SQL Server, every file gives an item or is passed over,
      no object is claimed twice, and something is left; it then holds those items, in the files' order. */
  lemma PlannedExactly(folderEngine: Engine, files: seq<SourceFile>, single: bool, profile: Profile, sha: Sha,
                       items: seq<Item>)
    ensures Plan(folderEngine, files, single, profile, None, sha) == Ok(items) <==>
            && folderEngine == SqlServer && profile.engine == SqlServer && items != [] && OneEach(items)
            && exists at :: TakenFrom(items, files, at, single, profile, sha)
  {
    hide PlanItems, TakenFrom, OneEach;
    if Plan(folderEngine, files, single, profile, None, sha) == Ok(items) {
      var at := PlannedAreTaken(files, single, profile, sha);
    }
    if OneEach(items) && exists at :: TakenFrom(items, files, at, single, profile, sha) {
      var at :| TakenFrom(items, files, at, single, profile, sha);
      TakenArePlanned(items, files, at, single, profile, sha);
    }
  }

  /** With the database at hand the plan is the same, and each item records what the database holds now. */
  lemma FingerprintsAreRecorded(folderEngine: Engine, files: seq<SourceFile>, single: bool, profile: Profile,
                                current: map<string, string>, sha: Sha)
    ensures var without := Plan(folderEngine, files, single, profile, None, sha);
            var plan := Plan(folderEngine, files, single, profile, Some(current), sha);
            && (without.Err? ==> plan == without)
            && (without.Ok? ==>
                  && plan.Ok? && |plan.value| == |without.value|
                  && forall i :: 0 <= i < |plan.value| ==>
                       && plan.value[i].fingerprintChecked && Recorded(plan.value[i], current)
                       && var item := without.value[i];
                          item == plan.value[i].(fingerprintChecked := false,
                                                 databaseFingerprint := item.databaseFingerprint))
  {
    hide PlanItems;
    if PlanItems(files, single, profile, sha).Ok? {
      Unchecked(files, single, profile, sha);
    }
  }

  lemma Unchecked(files: seq<SourceFile>, single: bool, profile: Profile, sha: Sha)
    requires PlanItems(files, single, profile, sha).Ok?
    ensures forall i :: 0 <= i < |PlanItems(files, single, profile, sha).value| ==>
              !PlanItems(files, single, profile, sha).value[i].fingerprintChecked
  {
    PlannedItems(files, single, profile, sha);
  }
}
