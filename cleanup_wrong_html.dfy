/**
 * `cleanup_wrong_html.py`: delete every `*.html` file directly inside a
 * top-level folder of `input/` except `folder_index.html`, counting the
 * deletions.
 *
 * The files under `input/` are paths relative to it; a top-level folder is
 * the first component of a file's directory.
 */
module CleanupWrongHtml {
  import opened Strings
  import opened Paths

  const FolderIndex: string := "folder_index.html"

  /** `folder.glob("*.html")` matches the name (dot-files included). */
  predicate IsHtml(p: Path) { EndsWith(p.name, ".html") }

  /** The files the script deletes in the folders `ds`. */
  function DoomedIn(fs: set<Path>, ds: set<string>): (r: set<Path>)
    ensures r <= fs
  {
    set p | p in fs && |p.dir| == 1 && p.dir[0] in ds && IsHtml(p) && p.name != FolderIndex
  }

  /** The top-level folders holding at least one file. */
  function TopFolders(fs: set<Path>): set<string> {
    set p | p in fs && |p.dir| >= 1 :: p.dir[0]
  }

  /** The files the script deletes. */
  function Doomed(fs: set<Path>): (r: set<Path>)
    ensures r <= fs
  {
    DoomedIn(fs, TopFolders(fs))
  }

  /** A file is deleted exactly when it is an `*.html` file other than `folder_index.html` one level down. */
  lemma DoomedIff(fs: set<Path>, p: Path)
    requires p in fs
    ensures p in Doomed(fs) <==> |p.dir| == 1 && IsHtml(p) && p.name != FolderIndex
  {
    if |p.dir| == 1 {
      assert p.dir[0] in TopFolders(fs);
    }
  }

  /** Files at the root, files deeper down, `folder_index.html` and non-HTML files all survive. */
  lemma CleanupKeeps(fs: set<Path>, p: Path)
    requires p in fs
    requires |p.dir| != 1 || p.name == FolderIndex || !IsHtml(p)
    ensures p in fs - Doomed(fs)
  {
    DoomedIff(fs, p);
  }

  /** Afterwards the only `*.html` file left in a top-level folder is `folder_index.html`. */
  lemma OnlyFolderIndexRemains(fs: set<Path>)
    ensures forall p :: p in fs - Doomed(fs) && |p.dir| == 1 && IsHtml(p) ==> p.name == FolderIndex
  {
    forall p | p in fs - Doomed(fs) && |p.dir| == 1 && IsHtml(p)
      ensures p.name == FolderIndex
    {
      DoomedIff(fs, p);
    }
  }

  /** A second run deletes nothing. */
  lemma CleanupIdempotent(fs: set<Path>)
    ensures Doomed(fs - Doomed(fs)) == {}
  {
    var rest := fs - Doomed(fs);
    forall p | p in rest ensures p !in Doomed(rest) {
      DoomedIff(rest, p);
      DoomedIff(fs, p);
    }
  }

  /** Deleting the files of some folders leaves the doomed files of another folder as they were. */
  lemma FolderStep(start: set<Path>, done: set<string>, folder: string)
    requires folder !in done
    ensures DoomedIn(start - DoomedIn(start, done), {folder}) == DoomedIn(start, {folder})
    ensures DoomedIn(start, done) !! DoomedIn(start, {folder})
    ensures DoomedIn(start, done + {folder}) == DoomedIn(start, done) + DoomedIn(start, {folder})
    ensures start - DoomedIn(start, done) - DoomedIn(start, {folder})
      == start - DoomedIn(start, done + {folder})
    ensures |DoomedIn(start, done + {folder})|
      == |DoomedIn(start, done)| + |DoomedIn(start, {folder})|
  {
    assert DoomedIn(start, done + {folder}) == DoomedIn(start, done) + DoomedIn(start, {folder});
  }

  lemma SubsetGrows<T>(all: set<T>, done: set<T>, x: T)
    requires done <= all && x in all - done
    ensures done + {x} <= all && |all - (done + {x})| < |all - done|
  {
    assert all - (done + {x}) == (all - done) - {x};
  }

  /** The files of `s` not named `folder_index.html`. */
  function NotIndex(s: set<Path>): set<Path> {
    set p | p in s && p.name != FolderIndex
  }

  lemma NotIndexStep(html: set<Path>, todo: set<Path>, f: Path)
    requires f in todo && todo <= html
    ensures NotIndex(html - (todo - {f}))
      == NotIndex(html - todo) + (if f.name != FolderIndex then {f} else {})
    ensures f !in NotIndex(html - todo)
  {
  }

  lemma NotIndexAll(fs: set<Path>, folder: string)
    ensures NotIndex(set p | p in fs && p.dir == [folder] && IsHtml(p)) == DoomedIn(fs, {folder})
  {
    forall p | p in DoomedIn(fs, {folder})
      ensures p in NotIndex(set p | p in fs && p.dir == [folder] && IsHtml(p))
    {
      assert p.dir == [p.dir[0]];
    }
  }

  /** The files under `input/`, changed in place by `unlink`. */
  class Input {
    var files: set<Path>

    constructor(fs: set<Path>)
      ensures files == fs
    {
      files := fs;
    }

    /**
     * `main`: every top-level folder in turn, in the order `iterdir` gives;
     * `removed` counts the deleted files.
     */
    method Cleanup() returns (removed: nat)
      modifies this
      ensures files == old(files) - Doomed(old(files))
      ensures removed == |Doomed(old(files))|
    {
      ghost var start := files;
      var folders := TopFolders(files);
      var done: set<string> := {};
      ghost var gone: set<Path> := {};
      removed := 0;
      while done != folders
        invariant done <= folders
        invariant gone == DoomedIn(start, done)
        invariant files == start - gone
        invariant removed == |gone|
        decreases |folders - done|
      {
        var folder :| folder in folders - done;
        FolderStep(start, done, folder);
        var n := CleanFolder(folder);
        removed := removed + n;
        gone := gone + DoomedIn(start, {folder});
        SubsetGrows(folders, done, folder);
        done := done + {folder};
      }
    }

    /** The inner loop over `folder.glob("*.html")`. */
    method CleanFolder(folder: string) returns (n: nat)
      modifies this
      ensures files == old(files) - DoomedIn(old(files), {folder})
      ensures n == |DoomedIn(old(files), {folder})|
    {
      var html := set p | p in files && p.dir == [folder] && IsHtml(p);
      var todo := html;
      ghost var gone: set<Path> := {};
      n := 0;
      while todo != {}
        invariant todo <= html
        invariant gone == NotIndex(html - todo)
        invariant files == old(files) - gone
        invariant n == |gone|
        decreases |todo|
      {
        var f :| f in todo;
        NotIndexStep(html, todo, f);
        if f.name != FolderIndex {
          files := files - {f};
          gone := gone + {f};
          n := n + 1;
        }
        todo := todo - {f};
      }
      assert html - todo == html;
      NotIndexAll(old(files), folder);
    }
  }
}
