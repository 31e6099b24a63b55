/**
 * `rename_safe.py`: make the names under `input/` URL-safe by replacing
 * spaces and the Norwegian letters, renaming the top-level folders first and
 * then every file.
 *
 * The tree below `input/` is a set of file paths and a set of directories,
 * each relative to `input/`; `os.rename` is modelled on it as POSIX defines it.
 */
module RenameSafe {
  import opened Wrappers
  import opened Strings
  import opened Paths

  // ---------------------------------------------------------------------------
  // Character map
  // ---------------------------------------------------------------------------

  /** `CHAR_MAP` in its insertion order: space, ø, Ø, æ, Æ, å, Å. */
  const CharMap: seq<(char, string)> := [
    (' ', "_"),
    ('\U{00F8}', "o"), ('\U{00D8}', "O"),
    ('\U{00E6}', "ae"), ('\U{00C6}', "AE"),
    ('\U{00E5}', "aa"), ('\U{00C5}', "AA")]

  /** The characters `CHAR_MAP` replaces. */
  predicate Mapped(c: char) {
    c == ' ' || c == '\U{00F8}' || c == '\U{00D8}' || c == '\U{00E6}'
    || c == '\U{00C6}' || c == '\U{00E5}' || c == '\U{00C5}'
  }

  /** What one character becomes: its `CHAR_MAP` entry, or itself. */
  function MapChar(c: char): (r: string)
    ensures !Mapped(c) <==> r == [c]
    ensures 1 <= |r| <= 2
    ensures forall i :: 0 <= i < |r| ==> !Mapped(r[i])
  {
    if c == ' ' then "_"
    else if c == '\U{00F8}' then "o"
    else if c == '\U{00D8}' then "O"
    else if c == '\U{00E6}' then "ae"
    else if c == '\U{00C6}' then "AE"
    else if c == '\U{00E5}' then "aa"
    else if c == '\U{00C5}' then "AA"
    else [c]
  }

  /** A name without any character `CHAR_MAP` replaces. */
  predicate Safe(s: string) {
    forall i :: 0 <= i < |s| ==> !Mapped(s[i])
  }

  /** The safe name: every character replaced by its `CHAR_MAP` entry. */
  function SafeName(s: string): string {
    if s == [] then [] else MapChar(s[0]) + SafeName(s[1..])
  }

  lemma {:induction false} SafeNameAppend(a: string, b: string)
    ensures SafeName(a + b) == SafeName(a) + SafeName(b)
  {
    if a != [] {
      assert (a + b)[1..] == a[1..] + b;
      SafeNameAppend(a[1..], b);
    } else {
      assert a + b == b;
    }
  }

  /** The safe name holds no mapped character, and is never shorter than the name. */
  lemma {:induction false} SafeNameIsSafe(s: string)
    ensures Safe(SafeName(s))
    ensures |SafeName(s)| >= |s|
  {
    if s != [] {
      SafeNameIsSafe(s[1..]);
      var h, t := MapChar(s[0]), SafeName(s[1..]);
      forall i | 0 <= i < |h + t| ensures !Mapped((h + t)[i]) {
        if i >= |h| { assert (h + t)[i] == t[i - |h|]; }
      }
    }
  }

  /** A name is left as it is exactly when it is already safe. */
  lemma {:induction false} SafeNameFixed(s: string)
    ensures SafeName(s) == s <==> Safe(s)
  {
    SafeNameIsSafe(s);
    if s != [] {
      SafeNameFixed(s[1..]);
      SafeNameIsSafe(s[1..]);
      if Safe(s) {
        assert Safe(s[1..]) by {
          forall i | 0 <= i < |s[1..]| ensures !Mapped(s[1..][i]) {
            assert s[1..][i] == s[i + 1];
          }
        }
        assert s == [s[0]] + s[1..];
      }
    }
  }

  /** Making a name safe twice changes nothing more. */
  lemma SafeNameIdempotent(s: string)
    ensures SafeName(SafeName(s)) == SafeName(s)
  {
    SafeNameIsSafe(s);
    SafeNameFixed(SafeName(s));
  }

  // ---------------------------------------------------------------------------
  // `safe_name`: one `str.replace` per entry of the map
  // ---------------------------------------------------------------------------

  /** What `c` has become after the first `k` replacements. */
  function Partial(c: char, k: nat): (r: string)
    requires k <= |CharMap|
  {
    if k == 0 then [c]
    else if CharMap[k - 1].0 == c then CharMap[k - 1].1
    else Partial(c, k - 1)
  }

  /** The name after the first `k` replacements. */
  function PartialName(s: string, k: nat): string
    requires k <= |CharMap|
  {
    if s == [] then [] else Partial(s[0], k) + PartialName(s[1..], k)
  }

  /** Every entry replaces a mapped character by a safe text, and no two entries share a character. */
  lemma CharMapEntries()
    ensures forall k :: 0 <= k < |CharMap| ==> Mapped(CharMap[k].0) && Safe(CharMap[k].1)
    ensures forall j, k :: 0 <= j < k < |CharMap| ==> CharMap[j].0 != CharMap[k].0
  {
  }

  /** After `k` replacements a character is still itself, or it has become the text of the one entry for it. */
  lemma {:induction false} PartialShape(c: char, k: nat)
    requires k <= |CharMap|
    ensures (Partial(c, k) == [c] && forall j :: 0 <= j < k ==> CharMap[j].0 != c)
      || (exists j :: 0 <= j < k && CharMap[j].0 == c && Partial(c, k) == CharMap[j].1)
  {
    if k > 0 && CharMap[k - 1].0 != c {
      PartialShape(c, k - 1);
    }
  }

  /** No replacement text contains a character that a later entry replaces. */
  lemma PartialStep(c: char, k: nat)
    requires k < |CharMap|
    ensures ReplaceChar(Partial(c, k), CharMap[k].0, CharMap[k].1) == Partial(c, k + 1)
  {
    CharMapEntries();
    PartialShape(c, k);
    var key := CharMap[k].0;
    if Partial(c, k) == [c] && forall j :: 0 <= j < k ==> CharMap[j].0 != c {
      ReplaceCharSingle(c, key, CharMap[k].1);
    } else {
      var j :| 0 <= j < k && CharMap[j].0 == c && Partial(c, k) == CharMap[j].1;
      var v := CharMap[j].1;
      assert forall i :: 0 <= i < |v| ==> v[i] != key by {
        assert Safe(v) && Mapped(key);
      }
    }
  }

  lemma {:induction false} PartialNameStep(s: string, k: nat)
    requires k < |CharMap|
    ensures ReplaceChar(PartialName(s, k), CharMap[k].0, CharMap[k].1) == PartialName(s, k + 1)
  {
    if s != [] {
      ReplaceCharAppend(Partial(s[0], k), PartialName(s[1..], k), CharMap[k].0, CharMap[k].1);
      PartialStep(s[0], k);
      PartialNameStep(s[1..], k);
    }
  }

  /** After all the replacements each character has become its map entry. */
  lemma PartialAll(c: char)
    ensures Partial(c, |CharMap|) == MapChar(c)
  {
    assert CharMap[0] == (' ', "_") && CharMap[1] == ('\U{00F8}', "o") && CharMap[2] == ('\U{00D8}', "O");
    assert CharMap[3] == ('\U{00E6}', "ae") && CharMap[4] == ('\U{00C6}', "AE");
    assert CharMap[5] == ('\U{00E5}', "aa") && CharMap[6] == ('\U{00C5}', "AA");
    assert Partial(c, 0) == [c];
    var p1 := Partial(c, 1);
    assert p1 == if c == ' ' then "_" else [c];
    var p2 := Partial(c, 2);
    assert p2 == if c == '\U{00F8}' then "o" else p1;
    var p3 := Partial(c, 3);
    assert p3 == if c == '\U{00D8}' then "O" else p2;
    var p4 := Partial(c, 4);
    assert p4 == if c == '\U{00E6}' then "ae" else p3;
    var p5 := Partial(c, 5);
    assert p5 == if c == '\U{00C6}' then "AE" else p4;
    var p6 := Partial(c, 6);
    assert p6 == if c == '\U{00E5}' then "aa" else p5;
    assert Partial(c, 7) == if c == '\U{00C5}' then "AA" else p6;
  }

  lemma {:induction false} PartialNameAll(s: string)
    ensures PartialName(s, |CharMap|) == SafeName(s)
  {
    if s != [] {
      PartialAll(s[0]);
      PartialNameAll(s[1..]);
    }
  }

  /** `safe_name`: apply `name.replace(old, new)` for each entry of `CHAR_MAP` in turn. */
  method ApplyCharMap(name: string) returns (r: string)
    ensures r == SafeName(name)
  {
    r := name;
    assert PartialName(name, 0) == name by {
      PartialNameNone(name);
    }
    for k := 0 to |CharMap|
      invariant r == PartialName(name, k)
    {
      PartialNameStep(name, k);
      r := ReplaceChar(r, CharMap[k].0, CharMap[k].1);
    }
    PartialNameAll(name);
  }

  lemma {:induction false} PartialNameNone(s: string)
    ensures PartialName(s, 0) == s
  {
    if s != [] {
      PartialNameNone(s[1..]);
      assert s == [s[0]] + s[1..];
    }
  }

  // ---------------------------------------------------------------------------
  // The tree and `os.rename`
  // ---------------------------------------------------------------------------

  /** `d` lies below (or is) `base`. */
  predicate Below(d: seq<string>, base: seq<string>) {
    |base| <= |d| && d[..|base|] == base
  }

  /** `d` with its leading `from` replaced by `to`, when it lies below `from`. */
  function Rebase(d: seq<string>, from: seq<string>, to: seq<string>): (r: seq<string>)
    ensures !Below(d, from) ==> r == d
    ensures Below(d, from) ==> r == to + d[|from|..]
  {
    if Below(d, from) then to + d[|from|..] else d
  }

  /** The files and the directories below `input/`. */
  datatype Tree = Tree(files: set<Path>, dirs: set<seq<string>>)
  {
    /** `p.is_dir()`. */
    predicate IsDir(p: Path) { p.Parts() in dirs }

    /** `p.is_file()`: a regular file, not a directory. */
    predicate IsFile(p: Path) { p in files && !IsDir(p) }

    /** `p.exists()`. */
    predicate Exists(p: Path) { p in files || IsDir(p) }

    /** A directory with nothing below it. */
    predicate EmptyDir(d: seq<string>) {
      d in dirs
      && (forall f :: f in files ==> !Below(f.dir, d))
      && (forall e :: e in dirs && e != d ==> !Below(e, d))
    }
  }

  /** Top-level directories hold safe names, and so do all files. */
  predicate AllSafe(t: Tree) {
    (forall f :: f in t.files && f.Parts() !in t.dirs ==> Safe(f.name))
    && (forall d :: d in t.dirs && |d| == 1 ==> Safe(d[0]))
  }

  /**
   * POSIX `rename(p, q)`: a file replaces a file of the new name but not a
   * directory; a directory moves with everything below it and replaces only
   * an empty directory.  `None` is the `OSError` Python raises.
   */
  function RenameTo(t: Tree, p: Path, q: Path): (r: Option<Tree>)
    requires t.Exists(p)
  {
    if t.IsDir(p) then
      if q in t.files || (t.IsDir(q) && !t.EmptyDir(q.Parts())) then None
      else
        var from, to := p.Parts(), q.Parts();
        Some(Tree(set f | f in t.files :: Path(Rebase(f.dir, from, to), f.name),
                  set d | d in t.dirs :: Rebase(d, from, to)))
    else if t.IsDir(q) then None
    else Some(Tree(t.files - {p} + {q}, t.dirs))
  }

  /** Renaming a file leaves the directories alone and swaps the one path. */
  lemma RenameFile(t: Tree, p: Path, q: Path)
    requires t.IsFile(p)
    ensures RenameTo(t, p, q).Some? <==> q.Parts() !in t.dirs
    ensures RenameTo(t, p, q).Some? ==>
      RenameTo(t, p, q).value.dirs == t.dirs && RenameTo(t, p, q).value.files == t.files - {p} + {q}
  {
  }

  /**
   * Renaming the top-level directory `[n]` to `[m]` keeps every other
   * top-level directory and adds `[m]` in place of `[n]`.
   */
  lemma RenameTopFolder(t: Tree, n: string, m: string)
    requires t.IsDir(Path([], n)) && RenameTo(t, Path([], n), Path([], m)).Some?
    ensures var u := RenameTo(t, Path([], n), Path([], m)).value;
      [m] in u.dirs
      && (forall d :: d in u.dirs && |d| == 1 ==> d == [m] || (d in t.dirs && d != [n]))
      && (forall d :: d in t.dirs && |d| == 1 && d != [n] ==> d in u.dirs)
  {
    var u := RenameTo(t, Path([], n), Path([], m)).value;
    assert Path([], n).Parts() == [n] && Path([], m).Parts() == [m];
    assert u.dirs == set d | d in t.dirs :: Rebase(d, [n], [m]);
    assert Rebase([n], [n], [m]) == [m];
    forall d | d in u.dirs && |d| == 1 ensures d == [m] || (d in t.dirs && d != [n]) {
      var e :| e in t.dirs && Rebase(e, [n], [m]) == d;
      if Below(e, [n]) {
        assert d == [m] + e[1..];
        assert |e| == 1;
        assert e == e[..1] == [n];
      }
    }
    forall d | d in t.dirs && |d| == 1 && d != [n] ensures d in u.dirs {
      assert !Below(d, [n]);
      assert Rebase(d, [n], [m]) == d;
    }
  }

  /** One folder of step 1 renamed: the folders still to do remain, and every other top-level folder is safe. */
  lemma FolderStep(t: Tree, n: string, folders: set<string>)
    requires t.IsDir(Path([], n)) && RenameTo(t, Path([], n), Path([], SafeName(n))).Some?
    requires n !in folders
    requires forall x :: x in folders ==> [x] in t.dirs
    requires forall d :: d in t.dirs && |d| == 1 ==> d[0] in folders || d[0] == n || Safe(d[0])
    ensures var u := RenameTo(t, Path([], n), Path([], SafeName(n))).value;
      (forall x :: x in folders ==> [x] in u.dirs)
      && (forall d :: d in u.dirs && |d| == 1 ==> d[0] in folders || Safe(d[0]))
  {
    var u := RenameTo(t, Path([], n), Path([], SafeName(n))).value;
    RenameTopFolder(t, n, SafeName(n));
    SafeNameIsSafe(n);
    forall x | x in folders ensures [x] in u.dirs {
      assert [x] in t.dirs && [x] != [n];
    }
    forall d | d in u.dirs && |d| == 1 ensures d[0] in folders || Safe(d[0]) {
      if d != [SafeName(n)] {
        assert d in t.dirs && d != [n];
        assert d[0] != n;
      }
    }
  }

  // ---------------------------------------------------------------------------
  // The tree `main` leaves behind
  // ---------------------------------------------------------------------------

  /** The names of the top-level folders. */
  function TopNames(t: Tree): set<string> {
    set d | d in t.dirs && |d| == 1 :: d[0]
  }

  /** Where `d` ends up once the top-level folders in `names` carry their safe names. */
  function MoveTop(names: set<string>, d: seq<string>): seq<string> {
    if |d| >= 1 && d[0] in names then [SafeName(d[0])] + d[1..] else d
  }

  /** The tree once the top-level folders in `names` carry their safe names, each with everything below it. */
  function FoldersRenamed(t: Tree, names: set<string>): Tree {
    Tree(set f | f in t.files :: Path(MoveTop(names, f.dir), f.name),
         set d | d in t.dirs :: MoveTop(names, d))
  }

  /** Where the file pass sends `f`: a regular file to its safe name in the same folder; a directory stays. */
  function FileTarget(dirs: set<seq<string>>, f: Path): Path {
    if f.Parts() in dirs then f else Path(f.dir, SafeName(f.name))
  }

  /** The tree once every file carries its safe name. */
  function FilesRenamed(t: Tree): Tree {
    Tree(set f | f in t.files :: FileTarget(t.dirs, f), t.dirs)
  }

  /** The tree a completed `main` leaves: the top-level folders renamed first, then every file. */
  function Renamed(t: Tree): Tree {
    FilesRenamed(FoldersRenamed(t, TopNames(t)))
  }

  /** Renaming the one folder `[n]` moves exactly what lies below it, and the names already done stay. */
  lemma MoveTopStep(names: set<string>, n: string, d: seq<string>)
    requires n !in names && SafeName(n) != n
    ensures Rebase(MoveTop(names, d), [n], [SafeName(n)]) == MoveTop(names + {n}, d)
  {
    var e := MoveTop(names, d);
    if |d| >= 1 && d[0] in names {
      SafeNameIsSafe(d[0]);
      SafeNameFixed(n);
      assert e[0] == SafeName(d[0]);
      assert e[0] != n;
      assert !Below(e, [n]);
    } else if |d| >= 1 && d[0] == n {
      assert Below(d, [n]);
    } else if |d| >= 1 {
      assert !Below(d, [n]);
    }
  }

  /** One renamed top-level folder takes the tree of the done names to that of one more. */
  lemma FoldersRenamedStep(t0: Tree, names: set<string>, n: string)
    requires n !in names && SafeName(n) != n
    requires var t := FoldersRenamed(t0, names);
      t.IsDir(Path([], n)) && RenameTo(t, Path([], n), Path([], SafeName(n))).Some?
    ensures RenameTo(FoldersRenamed(t0, names), Path([], n), Path([], SafeName(n))).value
      == FoldersRenamed(t0, names + {n})
  {
    var t := FoldersRenamed(t0, names);
    var m := SafeName(n);
    var u := RenameTo(t, Path([], n), Path([], m)).value;
    var v := FoldersRenamed(t0, names + {n});
    assert Path([], n).Parts() == [n] && Path([], m).Parts() == [m];
    assert u.dirs == set d | d in t.dirs :: Rebase(d, [n], [m]);
    assert u.files == set f | f in t.files :: Path(Rebase(f.dir, [n], [m]), f.name);
    forall x | x in u.dirs ensures x in v.dirs {
      var e :| e in t.dirs && x == Rebase(e, [n], [m]);
      var d :| d in t0.dirs && e == MoveTop(names, d);
      MoveTopStep(names, n, d);
    }
    forall x | x in v.dirs ensures x in u.dirs {
      var d :| d in t0.dirs && x == MoveTop(names + {n}, d);
      MoveTopStep(names, n, d);
      assert MoveTop(names, d) in t.dirs;
    }
    forall x | x in u.files ensures x in v.files {
      var e :| e in t.files && x == Path(Rebase(e.dir, [n], [m]), e.name);
      var f :| f in t0.files && e == Path(MoveTop(names, f.dir), f.name);
      MoveTopStep(names, n, f.dir);
    }
    forall x | x in v.files ensures x in u.files {
      var f :| f in t0.files && x == Path(MoveTop(names + {n}, f.dir), f.name);
      MoveTopStep(names, n, f.dir);
      assert Path(MoveTop(names, f.dir), f.name) in t.files;
    }
  }

  /** A folder already safe adds nothing to do. */
  lemma FoldersRenamedSafe(t0: Tree, names: set<string>, n: string)
    requires SafeName(n) == n
    ensures FoldersRenamed(t0, names + {n}) == FoldersRenamed(t0, names)
  {
    forall d ensures MoveTop(names + {n}, d) == MoveTop(names, d) {
      if |d| >= 1 && d[0] == n {
        assert d == [d[0]] + d[1..];
      }
    }
  }

  /** With no names done the tree is the one on disk. */
  lemma FoldersRenamedNone(t: Tree)
    ensures FoldersRenamed(t, {}) == t
  {
    assert forall d :: MoveTop({}, d) == d;
    assert forall f: Path :: Path(f.dir, f.name) == f;
  }

  /** Once every top-level folder is done, every top-level name is safe. */
  lemma FoldersRenamedSafeTop(t: Tree)
    ensures forall d :: d in FoldersRenamed(t, TopNames(t)).dirs && |d| == 1 ==> Safe(d[0])
  {
    forall x | x in FoldersRenamed(t, TopNames(t)).dirs && |x| == 1 ensures Safe(x[0]) {
      var d :| d in t.dirs && x == MoveTop(TopNames(t), d);
      assert |d| == 1;
      assert d[0] in TopNames(t);
      SafeNameIsSafe(d[0]);
    }
  }

  /** A top-level folder not yet done is still where it was. */
  lemma TopStays(t0: Tree, names: set<string>, n: string)
    requires n in TopNames(t0) && n !in names
    ensures [n] in FoldersRenamed(t0, names).dirs
    ensures FoldersRenamed(t0, names).IsDir(Path([], n))
  {
    assert Path([], n).Parts() == [n];
    var d :| d in t0.dirs && |d| == 1 && d[0] == n;
    assert d == [n];
    assert MoveTop(names, d) == d;
  }

  /** The files done so far, each where the file pass sends it. */
  function FileTargets(dirs: set<seq<string>>, done: set<Path>): set<Path> {
    set f | f in done :: FileTarget(dirs, f)
  }

  /** Every file the pass has placed names a directory or carries a safe name. */
  lemma FileTargetsSafe(dirs: set<seq<string>>, done: set<Path>)
    ensures forall g :: g in FileTargets(dirs, done) ==> g.Parts() in dirs || Safe(g.name)
  {
    forall g | g in FileTargets(dirs, done) ensures g.Parts() in dirs || Safe(g.name) {
      var f :| f in done && g == FileTarget(dirs, f);
      SafeNameIsSafe(f.name);
    }
  }

  lemma FileTargetsAdd(dirs: set<seq<string>>, done: set<Path>, f: Path)
    ensures FileTargets(dirs, done + {f}) == FileTargets(dirs, done) + {FileTarget(dirs, f)}
  {
  }

  /** A completed run leaves only safe file names and safe top-level folder names. */
  lemma RenamedAllSafe(t: Tree)
    ensures AllSafe(Renamed(t))
  {
    FoldersRenamedSafeTop(t);
    var u := FoldersRenamed(t, TopNames(t));
    FileTargetsSafe(u.dirs, u.files);
  }

  /** Where every top-level folder name is safe, the folder pass changes nothing. */
  lemma FoldersRenamedIdentity(u: Tree)
    requires forall d :: d in u.dirs && |d| == 1 ==> Safe(d[0])
    ensures FoldersRenamed(u, TopNames(u)) == u
  {
    forall d | |d| >= 1 && d[0] in TopNames(u) ensures MoveTop(TopNames(u), d) == d {
      var e :| e in u.dirs && |e| == 1 && e[0] == d[0];
      SafeNameFixed(d[0]);
      assert d == [d[0]] + d[1..];
    }
    var v := FoldersRenamed(u, TopNames(u));
    assert forall f: Path :: Path(f.dir, f.name) == f;
    assert v.dirs == u.dirs;
    assert v.files == u.files;
  }

  /** Running `rename_safe.py` a second time renames nothing. */
  lemma RenamedIdempotent(t: Tree)
    ensures Renamed(Renamed(t)) == Renamed(t)
  {
    var u := Renamed(t);
    RenamedAllSafe(t);
    FoldersRenamedIdentity(u);
    forall f | f in u.files ensures FileTarget(u.dirs, f) == f {
      if f.Parts() !in u.dirs {
        SafeNameFixed(f.name);
      }
    }
    assert FilesRenamed(u).files == u.files;
  }

  /** Moving one element from the set still to do to the set done keeps them apart and their union the same. */
  lemma MoveOne<T>(done: set<T>, todo: set<T>, x: T)
    requires x in todo && done !! todo
    ensures (done + {x}) + (todo - {x}) == done + todo && (done + {x}) !! (todo - {x})
  {
  }

  /** Renaming the unsafe file `f` takes the pass one file further. */
  lemma FileRenameStep(dirs: set<seq<string>>, done: set<Path>, files: set<Path>, f: Path)
    requires f in files && done !! files
    requires f.Parts() !in dirs && SafeName(f.name) != f.name
    ensures (FileTargets(dirs, done) + files) - {f} + {FileTarget(dirs, f)}
      == FileTargets(dirs, done + {f}) + (files - {f})
  {
    FileTargetsSafe(dirs, done);
    SafeNameFixed(f.name);
    assert f !in FileTargets(dirs, done);
    FileTargetsAdd(dirs, done, f);
  }

  /** A file that stays where it is takes the pass one file further. */
  lemma FileKeepStep(dirs: set<seq<string>>, done: set<Path>, files: set<Path>, f: Path)
    requires f in files && FileTarget(dirs, f) == f
    ensures FileTargets(dirs, done) + files == FileTargets(dirs, done + {f}) + (files - {f})
  {
    FileTargetsAdd(dirs, done, f);
  }

  /**
   * The folder pass part-way: the names in `done` are renamed, those in
   * `folders` still to do, and together they are the top-level folders of
   * the tree `t0` the pass started from.
   */
  predicate FolderPass(t: Tree, t0: Tree, done: set<string>, folders: set<string>) {
    done + folders == TopNames(t0) && done !! folders && t == FoldersRenamed(t0, done)
  }

  lemma FolderPassStart(t0: Tree)
    ensures FolderPass(t0, t0, {}, TopNames(t0))
  {
    FoldersRenamedNone(t0);
  }

  /** A folder still to do is a directory of the tree. */
  lemma FolderPassIsDir(t: Tree, t0: Tree, done: set<string>, folders: set<string>, n: string)
    requires FolderPass(t, t0, done, folders) && n in folders
    ensures t.IsDir(Path([], n))
  {
    TopStays(t0, done, n);
  }

  /** Renaming the unsafe folder `n` to its safe name takes the pass one folder further. */
  lemma FolderPassRename(t: Tree, t0: Tree, done: set<string>, folders: set<string>, n: string)
    requires FolderPass(t, t0, done, folders) && n in folders && SafeName(n) != n
    requires t.IsDir(Path([], n)) && RenameTo(t, Path([], n), Path([], SafeName(n))).Some?
    ensures FolderPass(RenameTo(t, Path([], n), Path([], SafeName(n))).value, t0, done + {n}, folders - {n})
  {
    FoldersRenamedStep(t0, done, n);
    MoveOne(done, folders, n);
  }

  /** A safe folder stays, and the pass goes one folder further. */
  lemma FolderPassKeep(t: Tree, t0: Tree, done: set<string>, folders: set<string>, n: string)
    requires FolderPass(t, t0, done, folders) && n in folders && SafeName(n) == n
    ensures FolderPass(t, t0, done + {n}, folders - {n})
  {
    FoldersRenamedSafe(t0, done, n);
    MoveOne(done, folders, n);
  }

  /** A finished folder pass leaves every top-level folder under its safe name. */
  lemma FolderPassEnd(t: Tree, t0: Tree, done: set<string>)
    requires FolderPass(t, t0, done, {})
    ensures t == FoldersRenamed(t0, TopNames(t0))
    ensures forall d :: d in t.dirs && |d| == 1 ==> Safe(d[0])
  {
    FoldersRenamedSafeTop(t0);
  }

  /**
   * The file pass part-way: the files in `done` sit where the pass sends
   * them, those in `files` are untouched, and together they are the files
   * of the tree `t0` the pass started from.
   */
  predicate FilePass(t: Tree, t0: Tree, done: set<Path>, files: set<Path>) {
    t.dirs == t0.dirs && done + files == t0.files && done !! files
    && t.files == FileTargets(t0.dirs, done) + files
  }

  lemma FilePassStart(t0: Tree)
    ensures FilePass(t0, t0, {}, t0.files)
  {
  }

  /** Renaming the unsafe file `f` to its safe name takes the pass one file further. */
  lemma FilePassRename(t: Tree, t0: Tree, done: set<Path>, files: set<Path>, f: Path)
    requires FilePass(t, t0, done, files) && f in files && t.IsFile(f) && SafeName(f.name) != f.name
    requires RenameTo(t, f, Path(f.dir, SafeName(f.name))).Some?
    ensures FilePass(RenameTo(t, f, Path(f.dir, SafeName(f.name))).value, t0, done + {f}, files - {f})
  {
    RenameFile(t, f, Path(f.dir, SafeName(f.name)));
    FileRenameStep(t0.dirs, done, files, f);
    MoveOne(done, files, f);
  }

  /** A file left as it is (a directory, or a safe name) takes the pass one file further. */
  lemma FilePassKeep(t: Tree, t0: Tree, done: set<Path>, files: set<Path>, f: Path)
    requires FilePass(t, t0, done, files) && f in files && (!t.IsFile(f) || SafeName(f.name) == f.name)
    ensures FilePass(t, t0, done + {f}, files - {f})
  {
    FileKeepStep(t0.dirs, done, files, f);
    MoveOne(done, files, f);
  }

  /** A finished file pass leaves the tree `FilesRenamed` gives, with only safe file names. */
  lemma FilePassEnd(t: Tree, t0: Tree, done: set<Path>)
    requires FilePass(t, t0, done, {})
    requires forall d :: d in t0.dirs && |d| == 1 ==> Safe(d[0])
    ensures t == FilesRenamed(t0)
    ensures AllSafe(t)
  {
    FileTargetsSafe(t0.dirs, done);
  }

  // ---------------------------------------------------------------------------
  // `rename_path` and `main`
  // ---------------------------------------------------------------------------

  /** The file system below `input/`, and whether `input/` exists at all. */
  class Disk {
    var tree: Tree
    var hasRoot: bool

    constructor (t: Tree, root: bool)
      ensures tree == t && hasRoot == root
    {
      tree := t;
      hasRoot := root;
    }

    /** `p.rename(q)`: `ok` is false where Python raises. */
    method Rename(p: Path, q: Path) returns (ok: bool)
      requires tree.Exists(p)
      modifies this
      ensures hasRoot == old(hasRoot)
      ensures ok <==> RenameTo(old(tree), p, q).Some?
      ensures tree == if ok then RenameTo(old(tree), p, q).value else old(tree)
    {
      var r := RenameTo(tree, p, q);
      ok := r.Some?;
      if ok {
        tree := r.value;
      }
    }

    /**
     * `rename_path`: a missing path, or one whose name is already safe, is
     * returned as it is; otherwise it is renamed to the safe name in the same
     * folder and the new path returned.
     */
    method RenamePath(p: Path) returns (q: Path, ok: bool)
      modifies this
      ensures hasRoot == old(hasRoot)
      ensures !old(tree.Exists(p)) || SafeName(p.name) == p.name ==> q == p && ok && tree == old(tree)
      ensures old(tree.Exists(p)) && SafeName(p.name) != p.name ==>
        q == Path(p.dir, SafeName(p.name))
        && (ok <==> RenameTo(old(tree), p, q).Some?)
        && tree == if ok then RenameTo(old(tree), p, q).value else old(tree)
    {
      if !tree.Exists(p) {
        return p, true;
      }
      var name := ApplyCharMap(p.name);
      if name == p.name {
        return p, true;
      }
      q := Path(p.dir, name);
      ok := Rename(p, q);
    }

    /**
     * `main`: without `input/` nothing happens.  Otherwise the top-level
     * folders are renamed in reverse name order, then every file of the
     * tree; a failed rename ends the run.  A completed run leaves the tree
     * `Renamed` describes, which holds only safe file names and safe
     * top-level folder names.
     */
    method Run() returns (completed: bool)
      modifies this
      ensures hasRoot == old(hasRoot)
      ensures !old(hasRoot) ==> completed && tree == old(tree)
      ensures completed && old(hasRoot) ==> tree == Renamed(old(tree))
      ensures completed ==> !old(hasRoot) || AllSafe(tree)
    {
      if !hasRoot {
        return true;
      }
      completed := RenameFolders();
      if completed {
        completed := RenameFiles();
      }
    }

    /** Step 1 of `main`: rename the top-level folders, greatest name first. */
    method RenameFolders() returns (ok: bool)
      modifies this
      ensures hasRoot == old(hasRoot)
      ensures ok ==> tree == FoldersRenamed(old(tree), TopNames(old(tree)))
      ensures ok ==> forall d :: d in tree.dirs && |d| == 1 ==> Safe(d[0])
    {
      var folders := TopNames(tree);
      ghost var done: set<string> := {};
      FolderPassStart(tree);
      while folders != {}
        invariant hasRoot == old(hasRoot)
        invariant FolderPass(tree, old(tree), done, folders)
        decreases |folders|
      {
        LexMaxExists(folders);
        var n :| IsLexMax(n, folders);
        var folder := Path([], n);
        FolderPassIsDir(tree, old(tree), done, folders, n);
        if tree.IsDir(folder) {
          ghost var before := tree;
          var moved, ok := RenamePath(folder);
          if !ok {
            return false;
          }
          if moved != folder {
            FolderPassRename(before, old(tree), done, folders, n);
          } else {
            FolderPassKeep(before, old(tree), done, folders, n);
          }
        }
        folders := folders - {n};
        done := done + {n};
      }
      FolderPassEnd(tree, old(tree), done);
      return true;
    }

    /** Step 2 of `main`: rename every file of the tree, as listed before the first rename. */
    method RenameFiles() returns (ok: bool)
      requires forall d :: d in tree.dirs && |d| == 1 ==> Safe(d[0])
      modifies this
      ensures hasRoot == old(hasRoot) && tree.dirs == old(tree.dirs)
      ensures ok ==> tree == FilesRenamed(old(tree))
      ensures ok ==> AllSafe(tree)
    {
      var files := tree.files;
      ghost var done: set<Path> := {};
      FilePassStart(tree);
      while files != {}
        invariant hasRoot == old(hasRoot) && tree.dirs == old(tree.dirs)
        invariant FilePass(tree, old(tree), done, files)
        decreases |files|
      {
        var f :| f in files;
        ghost var before := tree;
        if tree.IsFile(f) {
          var moved, ok := RenamePath(f);
          if !ok {
            return false;
          }
          if moved != f {
            FilePassRename(before, old(tree), done, files, f);
          } else {
            FilePassKeep(before, old(tree), done, files, f);
          }
        } else {
          FilePassKeep(before, old(tree), done, files, f);
        }
        files := files - {f};
        done := done + {f};
      }
      FilePassEnd(tree, old(tree), done);
      return true;
    }
  }
}
