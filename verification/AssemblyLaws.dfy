/** What an assembly guarantees: unmanaged files survive it, its outcome is known from what it finds,
    batch order does not matter, and a second run changes nothing. */
module AssemblyLaws {
  import opened Text
  import opened CategoryRules
  import opened ExportPaths
  import opened Assembly
  import FileTree
  import Headers = ManagedHeader

  // ----- The merge, whatever the order ---------------------------------------------------

  predicate FileAgrees(m: Merged, pieces: seq<Piece>, path: string, content: Content) {
    && (path in m.files ==> m.files[path] == content)
    && (forall j :: 0 <= j < |pieces| && pieces[j].FilePiece? && pieces[j].path == path ==>
          pieces[j].content == content)
  }

  predicate ItemAgrees(m: Merged, pieces: seq<Piece>, item: Item) {
    && (item.objectId in m.items ==> m.items[item.objectId] == item)
    && (forall j :: 0 <= j < |pieces| && pieces[j].SqlfluffPiece? && pieces[j].item.objectId == item.objectId ==>
          pieces[j].item == item)
  }

  predicate PieceAgrees(m: Merged, pieces: seq<Piece>, piece: Piece) {
    match piece
    case Fault(_) => false
    case FilePiece(path, content) => FileAgrees(m, pieces, path, content)
    case SqlfluffPiece(item) => ItemAgrees(m, pieces, item)
  }

  predicate Consistent(m: Merged, pieces: seq<Piece>) {
    forall i :: 0 <= i < |pieces| ==> PieceAgrees(m, pieces, pieces[i])
  }

  ghost predicate IsUnion(m: Merged, pieces: seq<Piece>, r: Merged) {
    && (forall p, c :: p in r.files && r.files[p] == c <==>
        (p in m.files && m.files[p] == c) || FilePiece(p, c) in pieces)
    && (forall id, x :: id in r.items && r.items[id] == x
                   <==> (id in m.items && m.items[id] == x) || (SqlfluffPiece(x) in pieces && x.objectId == id))
  }

  lemma ConsistentStep(m: Merged, pieces: seq<Piece>)
    requires pieces != []
    ensures Consistent(m, pieces) <==>
            Absorb(m, pieces[0]).Ok? && Consistent(Absorb(m, pieces[0]).value, pieces[1..])
  {
    hide Consistent;
    if Consistent(m, pieces) {
      ConsistentFirst(m, pieces);
    }
    ConsistentBack(m, pieces);
  }

  lemma ConsistentFirst(m: Merged, pieces: seq<Piece>)
    requires pieces != [] && Consistent(m, pieces)
    ensures Absorb(m, pieces[0]).Ok? && Consistent(Absorb(m, pieces[0]).value, pieces[1..])
  {
    var x, rest := pieces[0], pieces[1..];
    assert PieceAgrees(m, pieces, x);
    var next := Absorb(m, x).value;
    forall i | 0 <= i < |rest| ensures PieceAgrees(next, rest, rest[i]) {
      assert rest[i] == pieces[i + 1];
      assert PieceAgrees(m, pieces, pieces[i + 1]);
    }
  }

  lemma ConsistentBack(m: Merged, pieces: seq<Piece>)
    requires pieces != []
    ensures Absorb(m, pieces[0]).Ok? && Consistent(Absorb(m, pieces[0]).value, pieces[1..]) ==> Consistent(m, pieces)
  {
    hide PieceAgrees, Absorb, Consistent;
    if Absorb(m, pieces[0]).Ok? && Consistent(Absorb(m, pieces[0]).value, pieces[1..]) {
      forall i | 0 <= i < |pieces| ensures PieceAgrees(m, pieces, pieces[i]) {
        if i == 0 {
          FirstAgrees(m, pieces);
        } else {
          LaterAgrees(m, pieces, i);
        }
      }
      ConsistentFold(m, pieces);
    }
  }

  lemma ConsistentFold(m: Merged, pieces: seq<Piece>)
    requires forall i :: 0 <= i < |pieces| ==> PieceAgrees(m, pieces, pieces[i])
    ensures Consistent(m, pieces)
  {
  }

  lemma FirstAgrees(m: Merged, pieces: seq<Piece>)
    requires pieces != []
    requires Absorb(m, pieces[0]).Ok? && Consistent(Absorb(m, pieces[0]).value, pieces[1..])
    ensures PieceAgrees(m, pieces, pieces[0])
  {
    var next, rest := Absorb(m, pieces[0]).value, pieces[1..];
    forall j | 1 <= j < |pieces| ensures PieceAgrees(next, rest, pieces[j]) {
      assert pieces[j] == rest[j - 1];
    }
  }

  lemma LaterAgrees(m: Merged, pieces: seq<Piece>, i: nat)
    requires 0 < i < |pieces|
    requires Absorb(m, pieces[0]).Ok? && Consistent(Absorb(m, pieces[0]).value, pieces[1..])
    ensures PieceAgrees(m, pieces, pieces[i])
  {
    var x, next, rest := pieces[0], Absorb(m, pieces[0]).value, pieces[1..];
    assert rest[i - 1] == pieces[i];
    assert PieceAgrees(next, rest, pieces[i]);
    forall j | 1 <= j < |pieces| ensures pieces[j] == rest[j - 1] {
    }
  }

  lemma UnionStep(m: Merged, pieces: seq<Piece>, r: Merged)
    requires pieces != [] && Absorb(m, pieces[0]).Ok?
    requires IsUnion(Absorb(m, pieces[0]).value, pieces[1..], r)
    ensures IsUnion(m, pieces, r)
  {
    hide Absorb, IsUnion;
    var next := Absorb(m, pieces[0]).value;
    assert pieces == [pieces[0]] + pieces[1..];
    forall p, c
      ensures p in r.files && r.files[p] == c <==> (p in m.files && m.files[p] == c) || FilePiece(p, c) in pieces
    {
      UnionAt(next, pieces[1..], r, p, c);
      AbsorbAt(m, pieces[0], p, c);
    }
    forall id, x
      ensures id in r.items && r.items[id] == x
         <==> (id in m.items && m.items[id] == x) || (SqlfluffPiece(x) in pieces && x.objectId == id)
    {
      UnionItemAt(next, pieces[1..], r, id, x);
      AbsorbItemAt(m, pieces[0], id, x);
    }
    UnionFold(m, pieces, r);
  }

  lemma UnionFold(m: Merged, pieces: seq<Piece>, r: Merged)
    requires forall p, c :: p in r.files && r.files[p] == c
                       <==> (p in m.files && m.files[p] == c) || FilePiece(p, c) in pieces
    requires forall id, x :: id in r.items && r.items[id] == x
                        <==> (id in m.items && m.items[id] == x) || (SqlfluffPiece(x) in pieces && x.objectId == id)
    ensures IsUnion(m, pieces, r)
  {
  }

  lemma UnionAt(m: Merged, pieces: seq<Piece>, r: Merged, p: string, c: Content)
    requires IsUnion(m, pieces, r)
    ensures p in r.files && r.files[p] == c <==> (p in m.files && m.files[p] == c) || FilePiece(p, c) in pieces
  {
  }

  lemma UnionItemAt(m: Merged, pieces: seq<Piece>, r: Merged, id: string, x: Item)
    requires IsUnion(m, pieces, r)
    ensures id in r.items && r.items[id] == x
       <==> (id in m.items && m.items[id] == x) || (SqlfluffPiece(x) in pieces && x.objectId == id)
  {
  }

  lemma AbsorbAt(m: Merged, piece: Piece, p: string, c: Content)
    requires Absorb(m, piece).Ok?
    ensures var files := Absorb(m, piece).value.files;
            (p in files && files[p] == c <==> (p in m.files && m.files[p] == c) || FilePiece(p, c) == piece)
  {
  }

  lemma AbsorbItemAt(m: Merged, piece: Piece, id: string, x: Item)
    requires Absorb(m, piece).Ok?
    ensures var items := Absorb(m, piece).value.items;
            (id in items && items[id] == x
             <==> (id in m.items && m.items[id] == x) || (SqlfluffPiece(x) == piece && x.objectId == id))
  {
  }

  /** Merging succeeds exactly when no piece is a fault and no two pieces, nor a piece and what was there,
      disagree; the result is then their union. */
  lemma {:induction false} AbsorbIs(m: Merged, pieces: seq<Piece>)
    ensures AbsorbAll(m, pieces).Ok? <==> Consistent(m, pieces)
    ensures AbsorbAll(m, pieces).Ok? ==> IsUnion(m, pieces, AbsorbAll(m, pieces).value)
    decreases |pieces|
  {
    hide Absorb, Consistent, IsUnion;
    if pieces == [] {
      ConsistentFold(m, pieces);
      EmptyUnion(m);
    } else {
      ConsistentStep(m, pieces);
      if Absorb(m, pieces[0]).Ok? {
        var next := Absorb(m, pieces[0]).value;
        AbsorbIs(next, pieces[1..]);
        if AbsorbAll(next, pieces[1..]).Ok? {
          UnionStep(m, pieces, AbsorbAll(next, pieces[1..]).value);
        }
      }
    }
  }

  lemma EmptyUnion(m: Merged)
    ensures IsUnion(m, [], m)
  {
  }

  ghost predicate SamePieces(a: seq<Piece>, b: seq<Piece>) {
    forall x :: x in a <==> x in b
  }

  lemma ConsistentBySet(m: Merged, a: seq<Piece>, b: seq<Piece>)
    requires SamePieces(a, b) && Consistent(m, a)
    ensures Consistent(m, b)
  {
    hide FileAgrees, ItemAgrees;
    forall i | 0 <= i < |b| ensures PieceAgrees(m, b, b[i]) {
      assert b[i] in a;
      var k :| 0 <= k < |a| && a[k] == b[i];
      assert PieceAgrees(m, a, a[k]);
      AgreesBySet(m, a, b, b[i]);
    }
  }

  lemma AgreesBySet(m: Merged, a: seq<Piece>, b: seq<Piece>, x: Piece)
    requires SamePieces(a, b) && PieceAgrees(m, a, x)
    ensures PieceAgrees(m, b, x)
  {
    forall j | 0 <= j < |b| ensures exists k :: 0 <= k < |a| && a[k] == b[j] {
      assert b[j] in a;
    }
  }

  lemma UnionBySet(a: seq<Piece>, b: seq<Piece>, r: Merged, t: Merged)
    requires SamePieces(a, b) && IsUnion(EMPTY, a, r) && IsUnion(EMPTY, b, t)
    ensures r == t
  {
    forall p ensures p in r.files <==> p in t.files {
      if p in r.files {
        assert FilePiece(p, r.files[p]) in a;
      }
      if p in t.files {
        assert FilePiece(p, t.files[p]) in b;
      }
    }
    forall id ensures id in r.items <==> id in t.items {
      if id in r.items {
        assert SqlfluffPiece(r.items[id]) in a;
      }
      if id in t.items {
        assert SqlfluffPiece(t.items[id]) in b;
      }
    }
    forall p | p in r.files ensures r.files[p] == t.files[p] {
      assert FilePiece(p, r.files[p]) in a;
    }
    forall id | id in r.items ensures r.items[id] == t.items[id] {
      assert SqlfluffPiece(r.items[id]) in a;
    }
    assert r.files == t.files;
    assert r.items == t.items;
  }

  lemma MergeBySet(a: seq<Piece>, b: seq<Piece>)
    requires SamePieces(a, b)
    ensures AbsorbAll(EMPTY, a).Ok? <==> AbsorbAll(EMPTY, b).Ok?
    ensures AbsorbAll(EMPTY, a).Ok? ==> AbsorbAll(EMPTY, a) == AbsorbAll(EMPTY, b)
  {
    hide AbsorbAll, Consistent, IsUnion;
    AbsorbIs(EMPTY, a);
    AbsorbIs(EMPTY, b);
    if Consistent(EMPTY, a) {
      ConsistentBySet(EMPTY, a, b);
      UnionBySet(a, b, AbsorbAll(EMPTY, a).value, AbsorbAll(EMPTY, b).value);
    }
    if Consistent(EMPTY, b) {
      SamePiecesBack(a, b);
      ConsistentBySet(EMPTY, b, a);
    }
  }

  lemma SamePiecesBack(a: seq<Piece>, b: seq<Piece>)
    requires SamePieces(a, b)
    ensures SamePieces(b, a)
  {
  }

  // ----- Batch order ---------------------------------------------------------------------

  /** Archives with one digest are one archive, among those given. */
  predicate NoCollision(bundles: seq<Bundle>) {
    forall i, j :: 0 <= i < j < |bundles| && bundles[i].archiveSha == bundles[j].archiveSha ==> bundles[i] == bundles[j]
  }

  lemma {:induction false} UniqueKeepsAll(bundles: seq<Bundle>)
    requires NoCollision(bundles)
    ensures forall b :: b in Unique(bundles) <==> b in bundles
  {
    hide NoCollision;
    if bundles != [] {
      var init, last := bundles[..|bundles| - 1], bundles[|bundles| - 1];
      NoCollisionBefore(bundles);
      UniqueKeepsAll(init);
      assert bundles == init + [last];
      forall b | b in Unique(init) && b.archiveSha == last.archiveSha ensures b == last {
        SameDigestSame(bundles, b);
      }
    }
  }

  lemma NoCollisionBefore(bundles: seq<Bundle>)
    requires NoCollision(bundles) && bundles != []
    ensures NoCollision(bundles[..|bundles| - 1])
  {
  }

  lemma SameDigestSame(bundles: seq<Bundle>, b: Bundle)
    requires NoCollision(bundles) && bundles != [] && b in bundles[..|bundles| - 1]
    ensures b.archiveSha == bundles[|bundles| - 1].archiveSha ==> b == bundles[|bundles| - 1]
  {
    var k :| 0 <= k < |bundles| - 1 && bundles[..|bundles| - 1][k] == b;
    assert bundles[k] == b;
  }

  lemma {:induction false} PiecesOf(h: Hasher, bundles: seq<Bundle>, x: Piece)
    ensures x in AllPieces(h, bundles) <==> exists b :: b in bundles && x in BundlePieces(h, b)
  {
    hide BundlePieces;
    if bundles != [] {
      var init, last := bundles[..|bundles| - 1], bundles[|bundles| - 1];
      PiecesOf(h, init, x);
      assert bundles == init + [last];
    }
  }

  lemma SameBundlesSamePieces(h: Hasher, a: seq<Bundle>, b: seq<Bundle>)
    requires forall x :: x in a <==> x in b
    ensures SamePieces(AllPieces(h, a), AllPieces(h, b))
  {
    hide AllPieces, BundlePieces;
    forall x ensures x in AllPieces(h, a) <==> x in AllPieces(h, b) {
      PiecesOf(h, a, x);
      PiecesOf(h, b, x);
    }
  }

  lemma SameBundlesSameFacts(a: seq<Bundle>, b: seq<Bundle>)
    requires forall x :: x in a <==> x in b
    requires a != [] && b != []
    requires forall i :: 0 <= i < |a| ==> Refused(a[i]).None?
    requires forall i :: 0 <= i < |b| ==> Refused(b[i]).None?
    ensures OneProfile(Manifests(a)) ==> OneProfile(Manifests(b)) && Manifests(a)[0].profile == Manifests(b)[0].profile
    ensures HasIds(Manifests(a)) ==> HasIds(Manifests(b))
  {
    hide Refused;
    forall j | 0 <= j < |b| ensures exists i :: 0 <= i < |a| && a[i] == b[j] {
      assert b[j] in a;
    }
    forall j | 0 <= j < |b| ensures exists i :: 0 <= i < |a| && Manifests(a)[i] == Manifests(b)[j] {
      var i :| 0 <= i < |a| && a[i] == b[j];
      assert Manifests(a)[i] == Manifests(b)[j];
    }
  }

  /** Outside the aggregated reports an assembly's files are the merged files. */
  lemma IncomingIs(h: Hasher, bundles: seq<Bundle>)
    requires bundles != []
    ensures var unique := Unique(bundles);
            var merged := AbsorbAll(EMPTY, AllPieces(h, unique));
            && unique != []
            && (merged.Ok? ==> forall i :: 0 <= i < |unique| ==> Refused(unique[i]).None?)
            && Incoming(h, bundles) ==
                if merged.Err? then Err(merged.code) else Complete(h, Manifests(unique), merged.value)
  {
    hide Unique, AbsorbAll, AllPieces, Refused, Complete;
    UniqueNonempty(bundles);
    if AbsorbAll(EMPTY, AllPieces(h, Unique(bundles))).Ok? {
      AbsorbedAreRead(h, Unique(bundles));
    }
  }

  lemma ReportsAreAggregated(profile: string, ids: seq<string>, m: Merged)
    ensures Reports(profile, ids, m).Keys == if profile == "full" then FULL_REPORTS else AI_REPORTS
    ensures Reports(profile, ids, m).Keys <= AGGREGATED - {MANIFEST}
  {
    hide Counts, ItemList, Listed, Ordered;
  }

  lemma CompleteOutside(h: Hasher, manifests: seq<Manifest>, m: Merged, path: string)
    requires manifests != [] && Complete(h, manifests, m).Ok? && path !in AGGREGATED
    ensures var files := Complete(h, manifests, m).value;
            (path in files <==> path in m.files) && (path in files ==> files[path] == m.files[path])
  {
    hide Reports, NewManifest, Counts, Accounted;
    ReportsAreAggregated(manifests[0].profile, ExportIds(manifests), m);
  }

  /** The same batches in any order, repeated or not, are accepted or refused alike, and give the same
      files outside the aggregated ones. */
  lemma OrderDoesNotMatter(h: Hasher, a: seq<Bundle>, b: seq<Bundle>)
    requires forall x :: x in a <==> x in b
    requires NoCollision(a) && NoCollision(b)
    ensures Incoming(h, a).Ok? <==> Incoming(h, b).Ok?
    ensures Incoming(h, a).Ok? ==>
              forall path :: path !in AGGREGATED ==>
                var x, y := Incoming(h, a).value, Incoming(h, b).value;
                (path in x <==> path in y) && (path in x ==> x[path] == y[path])
  {
    hide Unique, AbsorbAll, AllPieces, Refused, Complete, NoCollision, Incoming, OneProfile, HasIds, Manifests;
    NoneFromNone(a, b);
    NoneFromNone(b, a);
    if a == [] {
      NoBatches(h);
    } else {
      UniqueKeepsAll(a);
      UniqueKeepsAll(b);
      IncomingIs(h, a);
      IncomingIs(h, b);
      var p, q := Unique(a), Unique(b);
      SameBundlesSamePieces(h, p, q);
      MergeBySet(AllPieces(h, p), AllPieces(h, q));
      if AbsorbAll(EMPTY, AllPieces(h, p)).Ok? {
        SameCompletion(h, p, q, AbsorbAll(EMPTY, AllPieces(h, p)).value);
      }
    }
  }

  lemma NoneFromNone<T>(a: seq<T>, b: seq<T>)
    requires forall x :: x in b ==> x in a
    ensures b != [] ==> a != []
  {
    if b != [] {
      assert b[0] in a;
    }
  }

  lemma NoBatches(h: Hasher)
    ensures Incoming(h, []).Err?
  {
  }

  lemma SameCompletion(h: Hasher, p: seq<Bundle>, q: seq<Bundle>, m: Merged)
    requires p != [] && q != [] && forall x :: x in p <==> x in q
    requires forall i :: 0 <= i < |p| ==> Refused(p[i]).None?
    requires forall i :: 0 <= i < |q| ==> Refused(q[i]).None?
    ensures var x, y := Complete(h, Manifests(p), m), Complete(h, Manifests(q), m);
            && (x.Ok? <==> y.Ok?)
            && (x.Ok? ==> forall path :: path !in AGGREGATED ==>
                  (path in x.value <==> path in y.value) && (path in x.value ==> x.value[path] == y.value[path]))
  {
    hide Refused, Manifests, Complete, OneProfile, HasIds;
    SameBundlesSameFacts(p, q);
    SameBundlesSameFacts(q, p);
    CompleteOk(h, Manifests(p), m);
    CompleteOk(h, Manifests(q), m);
    if Complete(h, Manifests(p), m).Ok? {
      forall path | path !in AGGREGATED
        ensures var x, y := Complete(h, Manifests(p), m).value, Complete(h, Manifests(q), m).value;
                (path in x <==> path in y) && (path in x ==> x[path] == y[path])
      {
        CompleteOutside(h, Manifests(p), m, path);
        CompleteOutside(h, Manifests(q), m, path);
      }
    }
  }

  lemma CompleteOk(h: Hasher, manifests: seq<Manifest>, m: Merged)
    requires manifests != []
    ensures Complete(h, manifests, m).Ok? <==> OneProfile(manifests) && Accounted(Counts(m.items)) && HasIds(manifests)
  {
    hide Reports, NewManifest, Counts, Accounted, OneProfile;
  }

  // ----- Lint accounting -----------------------------------------------------------------

  const STATUSES: set<string> := {"formatted", "parse_failed", "format_failed", "rolled_back"}

  function StatusIs(items: map<string, Item>, status: string): set<string> {
    set id | id in items && items[id].status == status
  }

  /** Each count is the number of items it names. */
  lemma CountsAre(items: map<string, Item>)
    ensures var c := Counts(items);
            && c.requested == |items.Keys|
            && c.formatted == |StatusIs(items, "formatted")|
            && c.parseFailed == |StatusIs(items, "parse_failed")|
            && c.formatFailed == |StatusIs(items, "format_failed")| + |StatusIs(items, "rolled_back")|
  {
    assert WithStatus(items, {"formatted"}) == StatusIs(items, "formatted");
    assert WithStatus(items, {"parse_failed"}) == StatusIs(items, "parse_failed");
    assert WithStatus(items, {"format_failed", "rolled_back"})
        == StatusIs(items, "format_failed") + StatusIs(items, "rolled_back");
    assert StatusIs(items, "format_failed") !! StatusIs(items, "rolled_back");
  }

  lemma PartsOfWhole<T>(a: set<T>, b: set<T>, c: set<T>, d: set<T>, whole: set<T>)
    requires a !! b && a !! c && a !! d && b !! c && b !! d && c !! d && a + b + c + d <= whole
    ensures |whole| == |a| + |b| + (|c| + |d|) <==> a + b + c + d == whole
  {
    var parts := a + b + c + d;
    assert |parts| == |a| + |b| + |c| + |d|;
    assert whole == parts + (whole - parts);
    assert |whole| == |parts| + |whole - parts|;
  }

  lemma StatusesApart(items: map<string, Item>, s: string, t: string)
    requires s != t
    ensures StatusIs(items, s) !! StatusIs(items, t)
    ensures StatusIs(items, s) <= items.Keys
  {
  }

  function Known(items: map<string, Item>): set<string> {
    StatusIs(items, "formatted") + StatusIs(items, "parse_failed") + StatusIs(items, "format_failed")
    + StatusIs(items, "rolled_back")
  }

  lemma KnownIsAll(items: map<string, Item>)
    ensures Known(items) == items.Keys <==> forall id :: id in items ==> items[id].status in STATUSES
  {
    if Known(items) == items.Keys {
      forall id | id in items ensures items[id].status in STATUSES {
        assert id in Known(items);
      }
    }
  }

  lemma StatusNames()
    ensures "formatted" != "parse_failed" && "formatted" != "format_failed" && "formatted" != "rolled_back"
    ensures "parse_failed" != "format_failed" && "parse_failed" != "rolled_back" && "format_failed" != "rolled_back"
  {
    assert |"formatted"| == 9 && |"parse_failed"| == 12 && |"format_failed"| == 13 && |"rolled_back"| == 11;
  }

  /** The counts add up exactly when every item has one of the four known statuses. */
  lemma AccountedExactly(items: map<string, Item>)
    ensures Accounted(Counts(items)) <==> forall id :: id in items ==> items[id].status in STATUSES
  {
    hide Counts, StatusIs, STATUSES;
    CountsAre(items);
    StatusNames();
    StatusesApart(items, "formatted", "parse_failed");
    StatusesApart(items, "formatted", "format_failed");
    StatusesApart(items, "formatted", "rolled_back");
    StatusesApart(items, "parse_failed", "format_failed");
    StatusesApart(items, "parse_failed", "rolled_back");
    StatusesApart(items, "format_failed", "rolled_back");
    StatusesApart(items, "rolled_back", "formatted");
    PartsOfWhole(StatusIs(items, "formatted"), StatusIs(items, "parse_failed"), StatusIs(items, "format_failed"),
                 StatusIs(items, "rolled_back"), items.Keys);
    KnownIsAll(items);
  }

  /** So batches of one profile that merge are refused for their accounting exactly when some merged item has
      another status. */
  lemma AccountingIsRefused(h: Hasher, bundles: seq<Bundle>)
    requires bundles != [] && AbsorbAll(EMPTY, AllPieces(h, Unique(bundles))).Ok?
    requires forall i :: 0 <= i < |Unique(bundles)| ==> Refused(Unique(bundles)[i]).None?
    requires OneProfile(Manifests(Unique(bundles)))
    ensures var items := AbsorbAll(EMPTY, AllPieces(h, Unique(bundles))).value.items;
            Incoming(h, bundles) == Err(ACCOUNTING_INVALID) <==>
            exists id :: id in items && items[id].status !in STATUSES
  {
    hide AbsorbAll, AllPieces, Unique, Refused, Counts, Accounted, Reports, NewManifest, Incoming, OneProfile,
         STATUSES;
    IncomingIs(h, bundles);
    AccountedExactly(AbsorbAll(EMPTY, AllPieces(h, Unique(bundles))).value.items);
    CodesApart();
  }

  lemma CodesApart()
    ensures ACCOUNTING_INVALID != PROFILE_CONFLICT && ACCOUNTING_INVALID != UNHANDLED
  {
  }

  // ----- The outcome ---------------------------------------------------------------------

  predicate NothingProtected(tree: Files, incoming: Files, managed: set<string>) {
    forall p :: p in incoming ==> !Protected(tree, incoming, managed, p)
  }

  /** The write pass: it succeeds exactly when nothing is protected, and then every listed file is
      replaced; stopped or not, every other file is as it was and nothing is lost. */
  lemma {:induction false} WriteAllIs(tree: Files, incoming: Files, managed: set<string>, order: seq<string>)
    requires forall i :: 0 <= i < |order| ==> order[i] in incoming
    requires Distinct(order)
    ensures var (after, done) := WriteAll(tree, incoming, managed, order);
            && (done <==> forall i :: 0 <= i < |order| ==> !Protected(tree, incoming, managed, order[i]))
            && (done ==> after.Keys == tree.Keys + (set p | p in order)
                         && forall p :: p in order ==> after[p] == incoming[p])
            && tree.Keys <= after.Keys
            && (forall p :: p in after ==>
                (p in tree && after[p] == tree[p]) || (p in order && after[p] == incoming[p]))
            && (forall p :: p in tree && (p !in order || p !in managed) ==> after[p] == tree[p])
    decreases |order|
  {
    if order != [] && !Protected(tree, incoming, managed, order[0]) {
      var next := tree[order[0] := incoming[order[0]]];
      assert order == [order[0]] + order[1..];
      WriteAllIs(next, incoming, managed, order[1..]);
      forall i | 1 <= i < |order|
        ensures Protected(next, incoming, managed, order[i]) == Protected(tree, incoming, managed, order[i])
      {
      }
    }
  }

  // ----- The assembled manifest ----------------------------------------------------------

  lemma TopNames()
    ensures IsPart("reports") && IsPart("manifest.yaml") && IsPart("context-index.md") && IsPart("export-summary.md")
  {
  }

  lemma FullNames()
    ensures IsPart("integrity-report.json") && IsPart("sqlfluff-report.json")
  {
  }

  lemma AiNames()
    ensures IsPart("integrity-report.md") && IsPart("sqlfluff-report.md")
  {
  }

  lemma FullPaths()
    ensures "reports" + "/" + "export-summary.md" == SUMMARY
    ensures "reports" + "/" + "integrity-report.json" == FULL_INTEGRITY
    ensures "reports" + "/" + "sqlfluff-report.json" == FULL_SQLFLUFF
  {
  }

  lemma AiPaths()
    ensures "reports" + "/" + "integrity-report.md" == AI_INTEGRITY
    ensures "reports" + "/" + "sqlfluff-report.md" == AI_SQLFLUFF
  {
  }

  lemma AggregatedAreNormal()
    ensures forall p :: p in AGGREGATED ==> IsNormal(p)
  {
    hide IsNormal, IsPart;
    FullPaths();
    AiPaths();
    TopNames();
    FullNames();
    AiNames();
    NamesAreNormal("reports", "manifest.yaml");
    NamesAreNormal("reports", "context-index.md");
    NamesAreNormal("reports", "export-summary.md");
    NamesAreNormal("reports", "integrity-report.json");
    NamesAreNormal("reports", "sqlfluff-report.json");
    NamesAreNormal("reports", "integrity-report.md");
    NamesAreNormal("reports", "sqlfluff-report.md");
  }

  lemma {:induction false} ManagedAreNormal(managed: seq<Declared>)
    requires Managed(managed).Ok?
    ensures forall i :: 0 <= i < |Managed(managed).value| ==> IsNormal(Managed(managed).value[i])
    ensures |Managed(managed).value| == |managed|
    ensures forall i :: 0 <= i < |managed| ==> SafePath(managed[i].path) == Ok(Managed(managed).value[i])
  {
    hide IsNormal, Normalised, IsSafe;
    if managed != [] {
      var init := managed[..|managed| - 1];
      ManagedAreNormal(init);
      NormalisedIsNormal(managed[|managed| - 1].path);
      assert managed == init + [managed[|managed| - 1]];
    }
  }

  predicate IsPlainFile(x: Piece) {
    x.FilePiece? ==> IsNormal(x.path) && x.path !in AGGREGATED
  }

  lemma {:induction false} DeclaredArePlain(h: Hasher, b: Bundle, m: Manifest, paths: seq<string>, x: Piece)
    requires |paths| <= |m.managed|
    requires forall i :: 0 <= i < |paths| ==> IsNormal(paths[i])
    requires x in DeclaredPieces(h, b, m, paths)
    ensures IsPlainFile(x)
  {
    hide IsNormal;
    if x !in DeclaredPieces(h, b, m, paths[..|paths| - 1]) {
      assert x in FilePieces(h, b, m, m.managed[|paths| - 1], paths[|paths| - 1]);
    } else {
      DeclaredArePlain(h, b, m, paths[..|paths| - 1], x);
    }
  }

  lemma BundleIsPlain(h: Hasher, b: Bundle, x: Piece)
    requires x in BundlePieces(h, b)
    ensures IsPlainFile(x)
  {
    hide IsNormal, DeclaredPieces, Managed, Refused;
    if Refused(b).None? {
      BundleUnfold(h, b);
      var m := ManifestOf(b);
      ManagedAreNormal(m.managed);
      if x !in ItemPieces(m.items) {
        DeclaredArePlain(h, b, m, Managed(m.managed).value, x);
      }
    }
  }

  lemma MergedArePlain(h: Hasher, bundles: seq<Bundle>)
    requires AbsorbAll(EMPTY, AllPieces(h, bundles)).Ok?
    ensures forall p :: p in AbsorbAll(EMPTY, AllPieces(h, bundles)).value.files ==> IsNormal(p) && p !in AGGREGATED
  {
    hide AbsorbAll, AllPieces, BundlePieces, IsNormal;
    var pieces := AllPieces(h, bundles);
    AbsorbIs(EMPTY, pieces);
    var files := AbsorbAll(EMPTY, pieces).value.files;
    forall p | p in files ensures IsNormal(p) && p !in AGGREGATED {
      var x := FilePiece(p, files[p]);
      assert x in pieces;
      PiecesOf(h, bundles, x);
      var b :| b in bundles && x in BundlePieces(h, b);
      BundleIsPlain(h, b, x);
    }
  }

  predicate AreNormal(files: Files) {
    forall p :: p in files ==> IsNormal(p)
  }

  function Others(files: Files): (r: seq<string>)
    ensures forall i :: 0 <= i < |r| ==> r[i] in files
    ensures forall p :: p in r <==> p in files && p != MANIFEST
  {
    var r := Ordered(files.Keys - {MANIFEST});
    assert forall i :: 0 <= i < |r| ==> r[i] in r;
    r
  }

  /** The manifest among the files describes the others: each once, with its size and hash. */
  predicate SelfDescribing(h: Hasher, files: Files) {
    && MANIFEST in files && files[MANIFEST].Yaml?
    && AreNormal(files)
    && files[MANIFEST].manifest.managed == DescribeAll(h, files, Others(files))
  }

  lemma CompleteUnfold(h: Hasher, manifests: seq<Manifest>, m: Merged)
    requires manifests != [] && Complete(h, manifests, m).Ok?
    ensures HasIds(manifests)
    ensures var ids := ExportIds(manifests);
            var files := m.files + Reports(manifests[0].profile, ids, m);
            Complete(h, manifests, m).value
              == files[MANIFEST := Yaml(NewManifest(h, manifests[0], ids, Counts(m.items), files))]
  {
    hide Reports, Counts, Accounted, OneProfile, NewManifest;
  }

  lemma CompleteDescribes(h: Hasher, manifests: seq<Manifest>, m: Merged)
    requires manifests != [] && Complete(h, manifests, m).Ok?
    requires forall p :: p in m.files ==> IsNormal(p) && p !in AGGREGATED
    ensures SelfDescribing(h, Complete(h, manifests, m).value)
  {
    hide Complete, Reports, Counts, IsNormal, SelfDescribing;
    AggregatedAreNormal();
    CompleteUnfold(h, manifests, m);
    var ids := ExportIds(manifests);
    ReportsAreAggregated(manifests[0].profile, ids, m);
    var files := m.files + Reports(manifests[0].profile, ids, m);
    WithManifestDescribes(h, manifests[0], ids, Counts(m.items), files);
  }

  lemma WithManifestDescribes(h: Hasher, base: Manifest, ids: seq<string>, counts: FormatCounts, files: Files)
    requires MANIFEST !in files && AreNormal(files) && IsNormal(MANIFEST)
    ensures SelfDescribing(h, files[MANIFEST := Yaml(NewManifest(h, base, ids, counts, files))])
  {
    hide IsNormal, DescribeAll, Ordered;
    var all := files[MANIFEST := Yaml(NewManifest(h, base, ids, counts, files))];
    assert all.Keys - {MANIFEST} == files.Keys;
    SameDescription(h, files, all, Others(all));
  }

  lemma SameDescription(h: Hasher, a: Files, b: Files, paths: seq<string>)
    requires forall i :: 0 <= i < |paths| ==> paths[i] in a && paths[i] in b && a[paths[i]] == b[paths[i]]
    ensures DescribeAll(h, a, paths) == DescribeAll(h, b, paths)
  {
  }

  lemma IncomingDescribes(h: Hasher, bundles: seq<Bundle>)
    requires Incoming(h, bundles).Ok?
    ensures SelfDescribing(h, Incoming(h, bundles).value)
  {
    hide Complete, AllPieces, AbsorbAll, Unique, Refused, SelfDescribing;
    IncomingIs(h, bundles);
    var unique := Unique(bundles);
    MergedArePlain(h, unique);
    CompleteDescribes(h, Manifests(unique), AbsorbAll(EMPTY, AllPieces(h, unique)).value);
  }

  lemma {:induction false} DescribedAreManaged(h: Hasher, files: Files, paths: seq<string>)
    requires Distinct(paths)
    requires forall i :: 0 <= i < |paths| ==> paths[i] in files
    requires AreNormal(files)
    ensures Managed(DescribeAll(h, files, paths)) == Ok(paths)
  {
    hide Normalised, IsSafe;
    if paths != [] {
      var init, last := paths[..|paths| - 1], paths[|paths| - 1];
      DescribedAreManaged(h, files, init);
      assert DescribeAll(h, files, paths)[..|paths| - 1] == DescribeAll(h, files, init);
      assert paths == init + [last];
    }
  }

  lemma OrderedIsDistinct(keys: set<string>)
    ensures Distinct(Ordered(keys))
  {
    OrderedIsSorted(keys);
    SortedIsDistinct(Ordered(keys));
  }

  /** What an assembly wrote is what the next one finds under management. */
  lemma PreviousIs(h: Hasher, tree: Files, incoming: Files)
    requires SelfDescribing(h, incoming)
    requires MANIFEST in tree && tree[MANIFEST] == incoming[MANIFEST]
    ensures Previous(tree) == Ok(incoming.Keys)
  {
    hide IsNormal, Ordered, DescribeAll, Distinct, Managed;
    var paths := Others(incoming);
    OrderedIsDistinct(incoming.Keys - {MANIFEST});
    DescribedAreManaged(h, incoming, paths);
    assert (set p | p in paths) + {MANIFEST} == incoming.Keys;
  }

  lemma {:induction false} InsertKeeps(d: Declared, sorted: seq<Declared>)
    ensures multiset(InsertFile(d, sorted)) == multiset(sorted) + multiset{d}
  {
    if sorted != [] {
      InsertKeeps(d, sorted[1..]);
      assert sorted == [sorted[0]] + sorted[1..];
    }
  }

  lemma {:induction false} SortKeeps(files: seq<Declared>)
    ensures multiset(SortFiles(files)) == multiset(files)
  {
    hide InsertFile;
    if files != [] {
      var init, last := files[..|files| - 1], files[|files| - 1];
      SortKeeps(init);
      InsertKeeps(last, SortFiles(init));
      assert files == init + [last];
    }
  }

  predicate Holds(h: Hasher, tree: Files, d: Declared) {
    IsNormal(d.path) && d.path in tree && Describe(h, d.path, tree[d.path]) == d
  }

  /** The entries of one path, in order. */
  function OfPath(files: seq<Declared>, path: string): seq<Declared> {
    if files == [] then []
    else if files[0].path == path then [files[0]] + OfPath(files[1..], path)
    else OfPath(files[1..], path)
  }

  lemma {:induction false} OfPathAppend(files: seq<Declared>, d: Declared, path: string)
    ensures OfPath(files + [d], path) == OfPath(files, path) + (if d.path == path then [d] else [])
  {
    if files == [] {
      assert OfPath([d][1..], path) == [];
    } else {
      assert (files + [d])[1..] == files[1..] + [d];
      OfPathAppend(files[1..], d, path);
    }
  }

  predicate InPathOrder(files: seq<Declared>) {
    forall i, j :: 0 <= i < j < |files| ==> !Headers.Less(files[j].path, files[i].path)
  }

  lemma {:induction false} InsertFileIs(d: Declared, sorted: seq<Declared>, path: string)
    requires InPathOrder(sorted)
    ensures InPathOrder(InsertFile(d, sorted))
    ensures forall x :: x in InsertFile(d, sorted) <==> x == d || x in sorted
    ensures OfPath(InsertFile(d, sorted), path) == OfPath(sorted + [d], path)
  {
    hide Headers.Less;
    OfPathAppend(sorted, d, path);
    if sorted == [] {
    } else if Headers.Less(d.path, sorted[0].path) {
      InsertsFirst(d, sorted);
      NotAmong(d, sorted, path);
      assert ([d] + sorted)[1..] == sorted;
    } else {
      InsertFileIs(d, sorted[1..], path);
      OfPathAppend(sorted[1..], d, path);
      assert ([sorted[0]] + InsertFile(d, sorted[1..]))[1..] == InsertFile(d, sorted[1..]);
      assert forall x :: x in sorted <==> x == sorted[0] || x in sorted[1..];
      var after := InsertFile(d, sorted);
      forall j | 0 < j < |after| ensures !Headers.Less(after[j].path, after[0].path) {
        assert after[j] in InsertFile(d, sorted[1..]);
      }
    }
  }

  lemma InsertsFirst(d: Declared, sorted: seq<Declared>)
    requires InPathOrder(sorted) && sorted != [] && Headers.Less(d.path, sorted[0].path)
    ensures InPathOrder([d] + sorted)
  {
    hide Headers.Less;
    forall j | 0 <= j < |sorted| ensures !Headers.Less(sorted[j].path, d.path) {
      if Headers.Less(sorted[j].path, d.path) {
        LessIsTransitive(sorted[j].path, d.path, sorted[0].path);
        LessIsStrict(sorted[0].path);
      }
    }
  }

  lemma {:induction false} NoneOfPath(files: seq<Declared>, path: string)
    requires forall i :: 0 <= i < |files| ==> files[i].path != path
    ensures OfPath(files, path) == []
  {
    if files != [] {
      NoneOfPath(files[1..], path);
    }
  }

  lemma NotAmong(d: Declared, sorted: seq<Declared>, path: string)
    requires InPathOrder(sorted) && sorted != [] && Headers.Less(d.path, sorted[0].path)
    ensures d.path == path ==> OfPath(sorted, path) == []
  {
    hide Headers.Less, OfPath;
    forall j | 0 <= j < |sorted| ensures sorted[j].path != d.path {
      LessIsStrict(sorted[0].path);
    }
    if d.path == path {
      NoneOfPath(sorted, path);
    }
  }

  /** Sorting files by path is stable: the list is in path order, and entries of one path keep theirs. */
  lemma {:induction false} SortFilesIs(files: seq<Declared>, path: string)
    ensures InPathOrder(SortFiles(files)) && OfPath(SortFiles(files), path) == OfPath(files, path)
  {
    hide InsertFile, InPathOrder;
    if files == [] {
      NothingInOrder();
    } else {
      var init, last := files[..|files| - 1], files[|files| - 1];
      SortFilesIs(init, path);
      InsertFileIs(last, SortFiles(init), path);
      OfPathAppend(SortFiles(init), last, path);
      OfPathAppend(init, last, path);
      assert files == init + [last];
    }
  }

  lemma NothingInOrder()
    ensures InPathOrder([])
  {
  }

  lemma {:induction false} ReadBackIs(h: Hasher, tree: Files, declared: seq<Declared>)
    requires forall i :: 0 <= i < |declared| ==> Holds(h, tree, declared[i])
    ensures ReadBack(h, tree, declared) == Ok(declared)
  {
    hide IsSafe, Normalised;
    if declared != [] {
      ReadBackIs(h, tree, declared[..|declared| - 1]);
      assert declared == declared[..|declared| - 1] + [declared[|declared| - 1]];
    }
  }

  /** The inventory of a tree holding self-describing files: those files and nothing else. */
  lemma InventoryIs(h: Hasher, tree: Files, incoming: Files)
    requires SelfDescribing(h, incoming)
    requires forall p :: p in incoming ==> p in tree && tree[p] == incoming[p]
    ensures var managed := SortFiles(DescribeAll(h, incoming, Others(incoming)));
            var files := managed + [Describe(h, MANIFEST, incoming[MANIFEST])];
            InventoryOutput(h, tree) == Ok(Inventory(files, h.sha(incoming[MANIFEST]), h.listing(SortFiles(files))))
  {
    hide IsNormal, Ordered, SortFiles, DescribeAll, Describe, ReadBack, Distinct, FreshNames, Holds;
    var paths := Others(incoming);
    var declared := DescribeAll(h, incoming, paths);
    OrderedIsDistinct(incoming.Keys - {MANIFEST});
    DescribedAreFresh(h, incoming, paths);
    SortKeeps(declared);
    forall i | 0 <= i < |SortFiles(declared)| ensures Holds(h, tree, SortFiles(declared)[i]) {
      assert SortFiles(declared)[i] in multiset(declared);
      DescribedHolds(h, tree, incoming, paths, SortFiles(declared)[i]);
    }
    ReadBackIs(h, tree, SortFiles(declared));
  }

  lemma DescribedHolds(h: Hasher, tree: Files, files: Files, paths: seq<string>, d: Declared)
    requires AreNormal(files)
    requires forall i :: 0 <= i < |paths| ==> paths[i] in files
    requires forall p :: p in files ==> p in tree && tree[p] == files[p]
    requires d in DescribeAll(h, files, paths)
    ensures Holds(h, tree, d)
  {
    hide IsNormal;
  }

  lemma DescribedAreFresh(h: Hasher, files: Files, paths: seq<string>)
    requires Distinct(paths) && AreNormal(files)
    requires forall i :: 0 <= i < |paths| ==> paths[i] in files
    ensures FreshNames(DescribeAll(h, files, paths))
  {
    hide IsSafe, Normalised;
  }

  // ----- The main results ----------------------------------------------------------------

  /** A file that no earlier assembly recorded keeps its bytes, whether the assembly succeeds or not. */
  lemma UnmanagedFilesSurvive(h: Hasher, tree: Files, bundles: seq<Bundle>, allowDeleteStale: bool, path: string)
    requires path in tree
    requires Previous(tree).Ok? ==> path !in Previous(tree).value
    ensures var after := Assemble(h, tree, bundles, allowDeleteStale).0;
            path in after && after[path] == tree[path]
  {
    hide Incoming, Previous, Ordered, WriteAll, InventoryOutput, Distinct;
    if Incoming(h, bundles).Ok? && Previous(tree).Ok? {
      var incoming := Incoming(h, bundles).value;
      OrderedIsDistinct(incoming.Keys);
      WriteAllIs(tree, incoming, Previous(tree).value, Ordered(incoming.Keys));
    }
  }

  /** What the caller can check beforehand: the batches merge, the recorded manifest can be read, stale
      files may go, and no unmanaged file differs from what is to be written. */
  predicate Ready(h: Hasher, tree: Files, bundles: seq<Bundle>, allowDeleteStale: bool) {
    && Incoming(h, bundles).Ok?
    && Previous(tree).Ok?
    && (Previous(tree).value <= Incoming(h, bundles).value.Keys || allowDeleteStale)
    && NothingProtected(tree, Incoming(h, bundles).value, Previous(tree).value)
  }

  /** An assembly succeeds exactly when it is ready. The root is then the old one without its stale
      managed files, overwritten by the merge; otherwise no file has gone, and what changed is already
      as the merge wants it. */
  lemma AssembleOutcome(h: Hasher, tree: Files, bundles: seq<Bundle>, allowDeleteStale: bool)
    ensures var (after, result) := Assemble(h, tree, bundles, allowDeleteStale);
            && (result.Ok? <==> Ready(h, tree, bundles, allowDeleteStale))
            && (result.Ok? ==>
                  var incoming := Incoming(h, bundles).value;
                  after == (tree - (Previous(tree).value - incoming.Keys)) + incoming
                  && result == InventoryOutput(h, after))
            && (result.Err? ==>
                  && tree.Keys <= after.Keys
                  && forall p :: p in after && !(p in tree && after[p] == tree[p]) ==>
                       Incoming(h, bundles).Ok? && p in Incoming(h, bundles).value
                       && after[p] == Incoming(h, bundles).value[p])
  {
    hide Incoming, Previous, Ordered, WriteAll, InventoryOutput, NothingProtected;
    if Incoming(h, bundles).Ok? && Previous(tree).Ok? {
      var incoming, managed := Incoming(h, bundles).value, Previous(tree).value;
      StaleIsEmpty(managed, incoming.Keys);
      WritePass(h, tree, incoming, managed);
      if NothingProtected(tree, incoming, managed) {
        IncomingDescribes(h, bundles);
        InventoryAfter(h, (tree - (managed - incoming.Keys)) + incoming, incoming);
      }
    }
  }

  /** Spelled out: an assembly succeeds exactly when the batches merge, the recorded manifest can be read, no file
      that it names would be left over (or that was allowed), and no file outside it stands in the way with other
      bytes. Files that the manifest names are replaced. */
  lemma AssembledExactly(h: Hasher, tree: Files, bundles: seq<Bundle>, allowDeleteStale: bool)
    ensures Assemble(h, tree, bundles, allowDeleteStale).1.Ok? <==>
            && Incoming(h, bundles).Ok? && Previous(tree).Ok?
            && (allowDeleteStale || forall p :: p in Previous(tree).value ==> p in Incoming(h, bundles).value)
            && forall p :: p in Incoming(h, bundles).value && p in tree && p !in Previous(tree).value ==>
                 tree[p] == Incoming(h, bundles).value[p]
  {
    hide Incoming, Previous, Assemble;
    AssembleOutcome(h, tree, bundles, allowDeleteStale);
  }

  lemma InventoryAfter(h: Hasher, tree: Files, incoming: Files)
    requires SelfDescribing(h, incoming)
    requires forall p :: p in incoming ==> p in tree && tree[p] == incoming[p]
    ensures InventoryOutput(h, tree).Ok?
  {
    hide *;
    InventoryIs(h, tree, incoming);
  }

  lemma WritePass(h: Hasher, tree: Files, incoming: Files, managed: set<string>)
    ensures var (after, done) := WriteAll(tree, incoming, managed, Ordered(incoming.Keys));
            && (done <==> NothingProtected(tree, incoming, managed))
            && (done ==> after - (managed - incoming.Keys) == (tree - (managed - incoming.Keys)) + incoming)
            && tree.Keys <= after.Keys
            && (forall p :: p in after && !(p in tree && after[p] == tree[p]) ==>
                p in incoming && after[p] == incoming[p])
  {
    hide Ordered, WriteAll, Distinct, Protected, NothingProtected;
    var order := Ordered(incoming.Keys);
    OrderedIsDistinct(incoming.Keys);
    WriteAllIs(tree, incoming, managed, order);
    ProtectedInOrder(tree, incoming, managed, order);
    var (after, done) := WriteAll(tree, incoming, managed, order);
    if done {
      assert (set p | p in order) == incoming.Keys;
      WithoutStale(tree, incoming, managed, after);
    }
  }

  lemma WithoutStale(tree: Files, incoming: Files, managed: set<string>, after: Files)
    requires after.Keys == tree.Keys + incoming.Keys
    requires forall p :: p in incoming ==> after[p] == incoming[p]
    requires forall p :: p in after && p !in incoming ==> p in tree && after[p] == tree[p]
    ensures after - (managed - incoming.Keys) == (tree - (managed - incoming.Keys)) + incoming
  {
  }

  lemma StaleIsEmpty(managed: set<string>, keys: set<string>)
    ensures managed - keys == {} <==> managed <= keys
  {
    if managed - keys == {} {
      forall p | p in managed ensures p in keys {
        assert p !in managed - keys;
      }
    }
  }

  lemma ProtectedInOrder(tree: Files, incoming: Files, managed: set<string>, order: seq<string>)
    requires forall p :: p in order <==> p in incoming
    ensures NothingProtected(tree, incoming, managed) <==>
            forall i :: 0 <= i < |order| ==> !Protected(tree, incoming, managed, order[i])
  {
    hide Protected;
  }

  /** Assembling the same batches again changes nothing and takes the same inventory. */
  lemma SecondRunChangesNothing(h: Hasher, tree: Files, bundles: seq<Bundle>, allowFirst: bool, allowSecond: bool)
    requires Assemble(h, tree, bundles, allowFirst).1.Ok?
    ensures var first := Assemble(h, tree, bundles, allowFirst);
            Assemble(h, first.0, bundles, allowSecond) == first
  {
    hide Assemble, Incoming, Previous, InventoryOutput, SelfDescribing;
    AssembleOutcome(h, tree, bundles, allowFirst);
    IncomingDescribes(h, bundles);
    var incoming := Incoming(h, bundles).value;
    var after := Assemble(h, tree, bundles, allowFirst).0;
    ManifestKept(h, incoming);
    PreviousIs(h, after, incoming);
    AssembleOutcome(h, after, bundles, allowSecond);
    assert after - (incoming.Keys - incoming.Keys) == after;
    assert after + incoming == after;
  }

  lemma ManifestKept(h: Hasher, incoming: Files)
    requires SelfDescribing(h, incoming)
    ensures MANIFEST in incoming
  {
  }

  // ----- What the rebuilt reports hold ---------------------------------------------------

  lemma {:induction false} ListedIs(paths: seq<string>)
    ensures forall p :: p in Listed(paths) <==> p in paths && IsListed(p)
    ensures Headers.SortedUnique(paths) ==> Headers.SortedUnique(Listed(paths))
  {
    hide IsListed, Headers.Less;
    if paths != [] {
      var init, last := paths[..|paths| - 1], paths[|paths| - 1];
      ListedIs(init);
      assert paths == init + [last];
      if Headers.SortedUnique(paths) {
        forall i | 0 <= i < |Listed(init)| ensures Headers.Less(Listed(init)[i], last) {
          assert Listed(init)[i] in init;
        }
      }
    }
  }

  /** The context index lists, in order, exactly the merged files of the four kinds outside the reports. */
  lemma IndexHolds(profile: string, exportIds: seq<string>, m: Merged)
    requires profile != "full"
    ensures AI_INDEX in Reports(profile, exportIds, m) && Reports(profile, exportIds, m)[AI_INDEX].Report?
    ensures var listed := Reports(profile, exportIds, m)[AI_INDEX].listed;
            && Headers.SortedUnique(listed)
            && forall p :: p in listed <==>
                 && p in m.files && !("reports/" <= p)
                 && (FileTree.EndsWith(p, ".sql") || FileTree.EndsWith(p, ".md") || FileTree.EndsWith(p, ".csv")
                     || FileTree.EndsWith(p, ".yaml"))
  {
    hide Ordered, Listed, Counts, FileTree.EndsWith;
    var paths := Ordered(m.files.Keys + {SUMMARY});
    OrderedIsSorted(m.files.Keys + {SUMMARY});
    ListedIs(paths);
    ReportKeys();
    SummaryIsReport();
  }

  lemma ReportKeys()
    ensures AI_INDEX != AI_SQLFLUFF && AI_INDEX != AI_INTEGRITY && FULL_SQLFLUFF != FULL_INTEGRITY
  {
  }

  lemma SummaryIsReport()
    ensures "reports/" <= SUMMARY
  {
  }

  /** The lint report holds every merged item once, in the order of their identifiers. */
  lemma LintReportHolds(exportIds: seq<string>, m: Merged) returns (ids: seq<string>)
    ensures FULL_SQLFLUFF in Reports("full", exportIds, m) && Reports("full", exportIds, m)[FULL_SQLFLUFF].Report?
    ensures var items := Reports("full", exportIds, m)[FULL_SQLFLUFF].items;
            && Headers.SortedUnique(ids) && (forall id :: id in ids <==> id in m.items)
            && |items| == |ids| && forall i :: 0 <= i < |ids| ==> items[i] == m.items[ids[i]]
  {
    hide Ordered, Counts;
    ids := Ordered(m.items.Keys);
    OrderedIsSorted(m.items.Keys);
    ReportKeys();
  }
}
