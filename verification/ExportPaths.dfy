/** Managed paths of an export: which are safe, how they are normalised, and the sorted listing of a
    set of paths. */
module ExportPaths {
  import opened Text
  import opened ManagedHeader
  import opened CategoryRules
  import opened FileTree

  // ----- Normalisation -------------------------------------------------------------------

  function Split(s: string): (r: seq<string>)
    ensures |r| > 0
  {
    if s == "" then [""] else
    var init := Split(s[..|s| - 1]);
    if s[|s| - 1] == '/' then init + [""] else init[..|init| - 1] + [init[|init| - 1] + [s[|s| - 1]]]
  }

  /** Empty components and `.` name nothing. */
  function Kept(parts: seq<string>): seq<string> {
    if parts == [] then []
    else Kept(parts[..|parts| - 1])
         + (if parts[|parts| - 1] == "" || parts[|parts| - 1] == "." then [] else [parts[|parts| - 1]])
  }

  function Join(parts: seq<string>): string {
    if parts == [] then "."
    else if |parts| == 1 then parts[0]
    else Join(parts[..|parts| - 1]) + "/" + parts[|parts| - 1]
  }

  /** A relative path that climbs nowhere and holds no backslash. */
  predicate IsSafe(path: string) {
    path != "" && path[0] != '/' && ".." !in Split(path) && '\\' !in path
  }

  function Normalised(path: string): string {
    Join(Kept(Split(path)))
  }

  const UNSAFE_BUNDLE := "UNSAFE_BUNDLE"

  function SafePath(path: string): Result<string> {
    if IsSafe(path) then Ok(Normalised(path)) else Err(UNSAFE_BUNDLE)
  }

  /** Already in the form a safe path is given. */
  predicate IsNormal(path: string) {
    IsSafe(path) && Normalised(path) == path
  }

  predicate IsPart(part: string) {
    part != "" && part != "." && part != ".." && HasNoSlash(part) && '\\' !in part
  }

  predicate AreParts(parts: seq<string>) {
    forall i :: 0 <= i < |parts| ==> IsPart(parts[i])
  }

  lemma {:induction false} SplitIsPlain(s: string)
    ensures forall i :: 0 <= i < |Split(s)| ==> HasNoSlash(Split(s)[i])
    ensures '\\' !in s ==> forall i :: 0 <= i < |Split(s)| ==> '\\' !in Split(s)[i]
  {
    if s != "" {
      SplitIsPlain(s[..|s| - 1]);
    }
  }

  lemma {:induction false} KeptAreParts(parts: seq<string>)
    requires ".." !in parts
    requires forall i :: 0 <= i < |parts| ==> HasNoSlash(parts[i]) && '\\' !in parts[i]
    ensures AreParts(Kept(parts))
  {
    if parts != [] {
      KeptAreParts(parts[..|parts| - 1]);
    }
  }

  lemma {:induction false} PartsAreKept(parts: seq<string>)
    requires AreParts(parts)
    ensures Kept(parts) == parts
  {
    if parts != [] {
      PartsAreKept(parts[..|parts| - 1]);
      assert parts == parts[..|parts| - 1] + [parts[|parts| - 1]];
    }
  }

  lemma {:induction false} SplitPlain(s: string)
    requires HasNoSlash(s)
    ensures Split(s) == [s]
  {
    if s != "" {
      SplitPlain(s[..|s| - 1]);
      assert s == s[..|s| - 1] + [s[|s| - 1]];
    }
  }

  lemma {:induction false} SplitAppend(a: string, b: string)
    requires HasNoSlash(b)
    ensures Split(a + "/" + b) == Split(a) + [b]
  {
    var s := a + "/" + b;
    if b == "" {
      assert s[..|s| - 1] == a;
    } else {
      var init := b[..|b| - 1];
      SplitAppend(a, init);
      assert s[..|s| - 1] == a + "/" + init;
      assert b == init + [b[|b| - 1]];
      assert (Split(a) + [init])[..|Split(a)|] == Split(a);
    }
  }

  lemma {:induction false} SplitJoin(parts: seq<string>)
    requires AreParts(parts) && parts != []
    ensures Split(Join(parts)) == parts
    ensures Join(parts) != "" && Join(parts)[0] != '/' && '\\' !in Join(parts)
  {
    var n := |parts| - 1;
    if n == 0 {
      SplitPlain(parts[0]);
    } else {
      SplitJoin(parts[..n]);
      SplitAppend(Join(parts[..n]), parts[n]);
      assert parts == parts[..n] + [parts[n]];
    }
  }

  /** Normalising is stable: a normalised path is safe, and normal. */
  lemma NormalisedIsNormal(path: string)
    requires IsSafe(path)
    ensures IsNormal(Normalised(path))
  {
    hide Split, Kept, Join;
    SplitIsPlain(path);
    KeptAreParts(Split(path));
    var parts := Kept(Split(path));
    if parts == [] {
      NothingIsDot();
    } else {
      SplitJoin(parts);
      PartsAreKept(parts);
    }
  }

  lemma NothingIsDot()
    ensures Join([]) == "." && IsNormal(".")
  {
  }

  lemma JoinIsNormal(parts: seq<string>)
    requires AreParts(parts) && parts != []
    ensures IsNormal(Join(parts))
  {
    hide Split, Kept, Join;
    SplitJoin(parts);
    PartsAreKept(parts);
  }

  lemma NamesAreNormal(folder: string, name: string)
    requires IsPart(folder) && IsPart(name)
    ensures IsNormal(name) && IsNormal(folder + "/" + name)
  {
    hide IsPart, IsNormal;
    JoinIsNormal([name]);
    JoinIsNormal([folder, name]);
    assert [folder, name][..1] == [folder];
  }

  // ----- Sorted listings -----------------------------------------------------------------

  predicate IsLeast(k: string, keys: set<string>) {
    k in keys && forall j :: j in keys ==> j == k || Less(k, j)
  }

  lemma LeastExtends(x: string, k: string, keys: set<string>)
    requires x in keys && IsLeast(k, keys - {x})
    ensures IsLeast(x, keys) || IsLeast(k, keys)
  {
    hide Less;
    LessIsTotal(x, k);
    if Less(x, k) {
      forall j | j in keys && j != x ensures Less(x, j) {
        assert j in keys - {x};
        if j != k {
          LessIsTransitive(x, k, j);
        }
      }
    } else {
      forall j | j in keys && j != k ensures Less(k, j) {
        assert j == x || j in keys - {x};
      }
    }
  }

  lemma {:induction false} LeastExists(keys: set<string>)
    requires keys != {}
    ensures exists k :: k in keys && IsLeast(k, keys)
  {
    hide Less;
    var x :| x in keys;
    if keys == {x} {
      assert IsLeast(x, keys);
    } else {
      LeastExists(keys - {x});
      var k :| k in keys - {x} && IsLeast(k, keys - {x});
      LeastExtends(x, k, keys);
    }
  }

  lemma LeastIsUnique(j: string, k: string, keys: set<string>)
    requires IsLeast(j, keys) && IsLeast(k, keys)
    ensures j == k
  {
    hide Less;
    if j != k {
      LessIsTransitive(j, k, j);
      LessIsStrict(j);
    }
  }

  function Least(keys: set<string>): (k: string)
    requires keys != {}
    ensures IsLeast(k, keys)
  {
    LeastExists(keys);
    assert forall j, k :: j in keys && IsLeast(j, keys) && k in keys && IsLeast(k, keys) ==> j == k by {
      forall j, k | IsLeast(j, keys) && IsLeast(k, keys) ensures j == k {
        LeastIsUnique(j, k, keys);
      }
    }
    var k :| k in keys && IsLeast(k, keys);
    k
  }

  /** The paths in code-point order. */
  function Ordered(keys: set<string>): (r: seq<string>)
    ensures |r| == |keys|
    ensures forall k :: k in r <==> k in keys
  {
    if keys == {} then [] else [Least(keys)] + Ordered(keys - {Least(keys)})
  }

  lemma {:induction false} OrderedIsSorted(keys: set<string>)
    ensures SortedUnique(Ordered(keys))
  {
    hide Less, Least;
    if keys != {} {
      var k := Least(keys);
      var rest := Ordered(keys - {k});
      OrderedIsSorted(keys - {k});
      forall i | 0 <= i < |rest| ensures Less(k, rest[i]) {
        assert rest[i] in rest;
      }
    }
  }

  lemma SortedIsDistinct(items: seq<string>)
    requires SortedUnique(items)
    ensures Distinct(items)
  {
    hide Less;
    forall i, j | 0 <= i < j < |items| ensures items[i] != items[j] {
      LessIsStrict(items[i]);
    }
  }

  // ----- Which paths are refused ---------------------------------------------------------

  /** Absolute paths, backslashes and steps upwards are refused wherever they stand. */
  lemma UnsafeIsRefused(a: string, b: string)
    ensures SafePath("") == SafePath("/" + a) == Err(UNSAFE_BUNDLE)
    ensures SafePath("..") == SafePath(a + "\\" + b) == Err(UNSAFE_BUNDLE)
    ensures SafePath("../" + b) == SafePath(a + "/..") == SafePath(a + "/../" + b) == Err(UNSAFE_BUNDLE)
  {
    hide Normalised, Split;
    assert HasNoSlash("..");
    SplitPlain("..");
    assert ("/" + a)[0] == '/';
    assert (a + "\\" + b)[|a|] == '\\';
    SplitAppend(a, "..");
    assert a + "/" + ".." == a + "/..";
    SplitMiddle("..", b);
    assert ".." + "/" + b == "../" + b;
    SplitMiddle(a + "/..", b);
    assert a + "/.." + "/" + b == a + "/../" + b;
  }

  lemma {:induction false} SplitMiddle(a: string, b: string)
    ensures forall part :: part in Split(a) ==> part in Split(a + "/" + b)
  {
    var s := a + "/" + b;
    if b == "" {
      assert s[..|s| - 1] == a;
    } else {
      var init := b[..|b| - 1];
      SplitMiddle(a, init);
      assert s[..|s| - 1] == a + "/" + init;
      SplitLonger(a, init);
    }
  }

  lemma {:induction false} SplitLonger(a: string, b: string)
    ensures |Split(a + "/" + b)| > |Split(a)| && Split(a + "/" + b)[..|Split(a)|] == Split(a)
  {
    var s := a + "/" + b;
    if b == "" {
      assert s[..|s| - 1] == a;
    } else {
      SplitLonger(a, b[..|b| - 1]);
      assert s[..|s| - 1] == a + "/" + b[..|b| - 1];
    }
  }
}
