/** A folder of text files, on a file system that may or may not tell upper from lower case. */
module FileTree {
  import opened Text

  datatype File = File(path: string, text: string)

  type Tree = map<string, File>

  /** A file system that ignores case may keep a spelling it has: a folder written to keeps its name,
      whatever case it is addressed in. `kept` is what it shows for a path after a write. */
  datatype FileSystem = CaseSensitive | CaseInsensitive(kept: (Tree, string) -> string)

  /** Two paths name the same file when their keys agree. */
  function Key(fs: FileSystem, path: string): string {
    if fs.CaseSensitive? then path else Casefold(path)
  }

  predicate WellKeyed(fs: FileSystem, tree: Tree) {
    forall k :: k in tree ==> Key(fs, tree[k].path) == k
  }

  /** The spelling under which a written file is listed: any that names the same file. */
  function Spelled(fs: FileSystem, tree: Tree, path: string): (r: string)
    ensures Key(fs, r) == Key(fs, path)
  {
    if fs.CaseInsensitive? && Casefold(fs.kept(tree, path)) == Casefold(path) then fs.kept(tree, path) else path
  }

  function Write(fs: FileSystem, tree: Tree, path: string, text: string): Tree {
    tree[Key(fs, path) := File(Spelled(fs, tree, path), text)]
  }

  function Remove(fs: FileSystem, tree: Tree, path: string): Tree {
    tree - {Key(fs, path)}
  }

  predicate Holds(fs: FileSystem, tree: Tree, path: string, text: string) {
    Key(fs, path) in tree && tree[Key(fs, path)].text == text
  }

  /** The text stands there, listed under a spelling of the path. */
  predicate Placed(fs: FileSystem, tree: Tree, path: string, text: string) {
    Holds(fs, tree, path, text) && Key(fs, tree[Key(fs, path)].path) == Key(fs, path)
  }

  // ----- Reading text --------------------------------------------------------------------

  /** Universal newlines: `\r\n` and a lone `\r` both read as `\n`. */
  function UniversalNewlines(s: string): string {
    if s == "" then ""
    else if s[0] != '\r' then [s[0]] + UniversalNewlines(s[1..])
    else if |s| > 1 && s[1] == '\n' then "\n" + UniversalNewlines(s[2..])
    else "\n" + UniversalNewlines(s[1..])
  }

  /** Reading a stored text: one byte-order mark is dropped and newlines are unified. */
  function ReadText(stored: string): string {
    UniversalNewlines(if stored != "" && stored[0] == '\U{FEFF}' then stored[1..] else stored)
  }

  predicate NoReturn(s: string) {
    forall i :: 0 <= i < |s| ==> s[i] != '\r'
  }

  lemma {:induction false} NewlinesUnified(s: string)
    ensures NoReturn(UniversalNewlines(s))
    ensures NoReturn(s) ==> UniversalNewlines(s) == s
  {
    if s != "" {
      NewlinesUnified(s[1..]);
      if s[0] == '\r' && |s| > 1 && s[1] == '\n' {
        NewlinesUnified(s[2..]);
      }
      if NoReturn(s) {
        assert NoReturn(s[1..]);
        assert s == [s[0]] + s[1..];
      }
    }
  }

  // ----- Names ---------------------------------------------------------------------------

  /** The last component of a path. */
  function Name(path: string): (r: string)
    ensures |r| <= |path|
  {
    if path == "" || path[|path| - 1] == '/' then ""
    else Name(path[..|path| - 1]) + [path[|path| - 1]]
  }

  predicate HasNoSlash(s: string) {
    forall i :: 0 <= i < |s| ==> s[i] != '/'
  }

  lemma {:induction false} NameHasNoSlash(path: string)
    ensures HasNoSlash(Name(path))
  {
    if path != "" && path[|path| - 1] != '/' {
      NameHasNoSlash(path[..|path| - 1]);
    }
  }

  lemma {:induction false} NameOf(folder: string, name: string)
    requires HasNoSlash(name)
    ensures Name(folder + "/" + name) == name
  {
    var path := folder + "/" + name;
    if name != "" {
      var init := name[..|name| - 1];
      assert path[..|path| - 1] == folder + "/" + init;
      NameOf(folder, init);
      assert name == init + [name[|name| - 1]];
    }
  }

  predicate EndsWith(s: string, suffix: string) {
    |suffix| <= |s| && s[|s| - |suffix|..] == suffix
  }

  /** Matches `*.sql`, ignoring case where the file system does. */
  predicate IsSql(fs: FileSystem, path: string) {
    EndsWith(Key(fs, path), ".sql")
  }

  lemma {:induction false} NameEndsWith(path: string, suffix: string)
    requires HasNoSlash(suffix)
    ensures EndsWith(Name(path), suffix) == EndsWith(path, suffix)
  {
    if suffix == "" {
    } else if path == "" || path[|path| - 1] == '/' {
      assert suffix[|suffix| - 1] != '/';
    } else {
      var init := path[..|path| - 1];
      var c := path[|path| - 1];
      assert path == init + [c];
      NameEndsWith(init, suffix[..|suffix| - 1]);
      EndsWithLast(init, c, suffix);
      EndsWithLast(Name(init), c, suffix);
    }
  }

  lemma EndsWithLast(s: string, c: char, suffix: string)
    requires suffix != ""
    ensures EndsWith(s + [c], suffix) <==>
            c == suffix[|suffix| - 1] && EndsWith(s, suffix[..|suffix| - 1])
  {
  }

  lemma {:induction false} CasefoldName(path: string)
    ensures Name(Casefold(path)) == Casefold(Name(path))
  {
    if path != "" {
      var init, c := path[..|path| - 1], path[|path| - 1];
      assert Casefold(path)[..|path| - 1] == Casefold(init);
      if c != '/' {
        assert LowerChar(c) != '/';
        CasefoldName(init);
        assert Casefold(Name(init) + [c]) == Casefold(Name(init)) + [LowerChar(c)];
      }
    }
  }

  lemma CasefoldConcat(a: string, b: string)
    ensures Casefold(a + b) == Casefold(a) + Casefold(b)
  {
  }

  /** Whether a path is a SQL file depends on its name alone. */
  lemma SqlByName(fs: FileSystem, path: string, path': string)
    requires Name(path) == Name(path')
    ensures IsSql(fs, path) == IsSql(fs, path')
  {
    assert HasNoSlash(".sql");
    CasefoldName(path);
    CasefoldName(path');
    NameEndsWith(Key(fs, path), ".sql");
    NameEndsWith(Key(fs, path'), ".sql");
  }

  /** Files with different folded paths are different files on either file system. */
  lemma KeyFold(fs: FileSystem, a: string, b: string)
    ensures Key(fs, a) == Key(fs, b) ==> Casefold(a) == Casefold(b)
  {
  }
}
