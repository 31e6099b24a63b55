/**
 * `export_docx_to_txt.py`: write a `.summary.txt` copy of `.docx` summaries,
 * one file named on the command line or every `.docx` file of a folder.
 *
 * A document is the sequence of its paragraph texts; reading it is a
 * parameter (`None` when `python-docx` is missing or the document cannot be
 * read).  The folder is the sequence of entries its glob walks, each with
 * its path relative to the folder and whether it is a file.
 */
module ExportDocx {
  import opened Wrappers
  import opened Strings
  import opened Paths

  const ParagraphSep: string := "\n\n"
  const SummaryTxt: string := ".summary.txt"

  // ---------------------------------------------------------------------------
  // `export_docx_to_txt`
  // ---------------------------------------------------------------------------

  /** The paragraphs kept for the text: those with something besides whitespace. */
  function NonBlank(paras: seq<string>): (r: seq<string>)
    ensures |r| <= |paras|
  {
    if paras == [] then []
    else
      var last := paras[|paras| - 1];
      NonBlank(paras[..|paras| - 1]) + (if Strip(last) != [] then [last] else [])
  }

  /** A paragraph is kept exactly when it is not blank; it is kept as it was, unstripped. */
  lemma {:induction false} NonBlankMembers(paras: seq<string>)
    ensures forall x :: x in NonBlank(paras) <==> x in paras && Strip(x) != []
  {
    if paras != [] {
      var init := paras[..|paras| - 1];
      NonBlankMembers(init);
      assert paras == init + [paras[|paras| - 1]];
    }
  }

  /** Dropping blank paragraphs twice drops nothing more. */
  lemma {:induction false} NonBlankIdempotent(paras: seq<string>)
    ensures NonBlank(NonBlank(paras)) == NonBlank(paras)
  {
    if paras != [] {
      var init := paras[..|paras| - 1];
      var last := paras[|paras| - 1];
      NonBlankIdempotent(init);
      var k := NonBlank(init);
      if Strip(last) != [] {
        assert (k + [last])[..|k|] == k;
      } else {
        assert k + [] == k;
      }
    }
  }

  /** The loop collecting `text_content`, then `'\n\n'.join(text_content)`. */
  method ExtractText(paras: seq<string>) returns (text: string)
    ensures text == Join(NonBlank(paras), ParagraphSep)
  {
    var content: seq<string> := [];
    for i := 0 to |paras|
      invariant content == NonBlank(paras[..i])
    {
      assert paras[..i + 1][..i] == paras[..i];
      if Strip(paras[i]) != [] {
        content := content + [paras[i]];
      }
    }
    assert paras[..|paras|] == paras;
    text := Join(content, ParagraphSep);
  }

  /** `docx_path.with_suffix('.summary.txt')`. */
  function SummaryTxtPath(docx: Path): (r: Result<Path>)
    ensures r.Ok? <==> docx.name != []
  {
    docx.WithSuffix(SummaryTxt)
  }

  /** `x.docx` is exported to `x.summary.txt` beside it. */
  lemma SummaryTxtOfDocx(docx: Path, base: string)
    requires docx.name == base + ".docx" && base != []
    ensures SummaryTxtPath(docx) == Ok(Path(docx.dir, base + SummaryTxt))
  {
    NameParts(docx, base, ".docx");
  }

  /** Whether `export_docx_to_txt` returns a path. */
  predicate Exports(docx: Path, doc: Option<seq<string>>) {
    doc.Some? && SummaryTxtPath(docx).Ok?
  }

  /**
   * `export_docx_to_txt`: the path written and its text, or `None` when the
   * document cannot be read or `with_suffix` raises.
   */
  method Export(docx: Path, doc: Option<seq<string>>) returns (r: Option<(Path, string)>)
    ensures r.Some? <==> Exports(docx, doc)
    ensures r.Some? ==>
      r.value.0 == SummaryTxtPath(docx).value && r.value.1 == Join(NonBlank(doc.value), ParagraphSep)
  {
    if doc.None? {
      return None;
    }
    var text := ExtractText(doc.value);
    var path := SummaryTxtPath(docx);
    if path.Err? {
      return None;
    }
    return Some((path.value, text));
  }

  // ---------------------------------------------------------------------------
  // `find_docx_files`
  // ---------------------------------------------------------------------------

  /** An entry of the walk below the folder, relative to it. */
  datatype Entry = Entry(path: Path, isFile: bool)

  // The pattern `**/*.docx` (recursive) or `*.docx` matches the entry.
  predicate GlobMatches(p: Path, recursive: bool) {
    EndsWith(p.name, ".docx") && (recursive || p.dir == [])
  }

  /** An entry `find_docx_files` keeps: a file, matched by the glob, not a `~` lock file. */
  predicate Selected(e: Entry, recursive: bool) {
    GlobMatches(e.path, recursive) && e.isFile && !StartsWith(e.path.name, "~")
  }

  /** `find_docx_files`, in the order the glob yields them. */
  function FindDocx(entries: seq<Entry>, recursive: bool): (r: seq<Path>)
    ensures |r| <= |entries|
  {
    if entries == [] then []
    else
      var last := entries[|entries| - 1];
      FindDocx(entries[..|entries| - 1], recursive) + (if Selected(last, recursive) then [last.path] else [])
  }

  /** A path is found exactly when an entry for it is selected. */
  lemma {:induction false} FindDocxMembers(entries: seq<Entry>, recursive: bool, p: Path)
    ensures p in FindDocx(entries, recursive)
      <==> exists e :: e in entries && e.path == p && Selected(e, recursive)
  {
    if entries != [] {
      var init, last := entries[..|entries| - 1], entries[|entries| - 1];
      FindDocxMembers(init, recursive, p);
      assert entries == init + [last];
      if p in FindDocx(init, recursive) {
        var e :| e in init && e.path == p && Selected(e, recursive);
        assert e in entries;
      }
    }
  }

  /** What is found without recursion is found with it. */
  lemma {:induction false} FindDocxRecursiveMore(entries: seq<Entry>, p: Path)
    requires p in FindDocx(entries, false)
    ensures p in FindDocx(entries, true) && p.dir == []
  {
    FindDocxMembers(entries, false, p);
    FindDocxMembers(entries, true, p);
    var e :| e in entries && e.path == p && Selected(e, false);
  }

  // ---------------------------------------------------------------------------
  // `main`
  // ---------------------------------------------------------------------------

  /** How many of `files` satisfy `ok`. */
  function CountWhere(files: seq<Path>, ok: Path -> bool): (n: nat)
    ensures n <= |files|
  {
    if files == [] then 0
    else
      var last := files[|files| - 1];
      CountWhere(files[..|files| - 1], ok) + (if ok(last) then 1 else 0)
  }

  /** Whether a file is exported, when documents are read by `docs`. */
  function Exported(docs: Path -> Option<seq<string>>): Path -> bool {
    f => Exports(f, docs(f))
  }

  /** The count reaches the number of files exactly when every file satisfies `ok`. */
  lemma {:induction false} CountWhereAll(files: seq<Path>, ok: Path -> bool)
    ensures CountWhere(files, ok) == |files| <==> forall i :: 0 <= i < |files| ==> ok(files[i])
  {
    if files != [] {
      var init := files[..|files| - 1];
      CountWhereAll(init, ok);
      assert forall i :: 0 <= i < |init| ==> init[i] == files[i];
    }
  }

  /** The count is zero exactly when no file satisfies `ok`. */
  lemma {:induction false} CountWhereNone(files: seq<Path>, ok: Path -> bool)
    ensures CountWhere(files, ok) == 0 <==> forall i :: 0 <= i < |files| ==> !ok(files[i])
  {
    if files != [] {
      var init := files[..|files| - 1];
      CountWhereNone(init, ok);
      assert forall i :: 0 <= i < |init| ==> init[i] == files[i];
    }
  }

  /**
   * `main`.  `file` is `--file`, `fileExists`/`folderExists` whether the
   * file or the folder exists, `entries` the walk below the folder and
   * `docs` reads a document.  `code` is the exit status (0 when `main`
   * returns normally); in folder mode `found` and `exported` are the counts
   * of the final report.
   */
  method Run(file: Option<Path>, fileExists: bool, folderExists: bool, entries: seq<Entry>,
             recursive: bool, docs: Path -> Option<seq<string>>)
    returns (code: int, found: nat, exported: nat)
    ensures code == 0 || code == 1
    ensures file.Some? ==>
      (code == 0 <==> fileExists && file.value.Suffix() == ".docx" && Exports(file.value, docs(file.value)))
    ensures file.None? && !folderExists ==> code == 1 && found == 0 && exported == 0
    ensures file.None? && folderExists ==>
      code == 0 && found == |FindDocx(entries, recursive)|
      && exported == CountWhere(FindDocx(entries, recursive), Exported(docs)) && exported <= found
  {
    found, exported := 0, 0;
    if file.Some? {
      var docx := file.value;
      if !fileExists {
        return 1, 0, 0;
      }
      if docx.Suffix() != ".docx" {
        return 1, 0, 0;
      }
      var result := Export(docx, docs(docx));
      code := if result.Some? then 0 else 1;
      return;
    }
    if !folderExists {
      return 1, 0, 0;
    }
    var files := FindDocx(entries, recursive);
    found := |files|;
    if files == [] {
      return 0, 0, 0;
    }
    for i := 0 to |files|
      invariant exported == CountWhere(files[..i], Exported(docs))
    {
      assert files[..i + 1][..i] == files[..i];
      var r := Export(files[i], docs(files[i]));
      if r.Some? {
        exported := exported + 1;
      }
    }
    assert files[..|files|] == files;
    code := 0;
  }
}
