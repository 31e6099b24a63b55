/**
 * `stenografen_upload_server.py`: the validators behind the folder-creation
 * and upload endpoints.
 *
 * The storage below the input folder is a set of directories and a set of
 * files, each a sequence of path components relative to the input folder.
 * A request handler is a function from the disk and the request fields to
 * the response and the new disk.
 */
module UploadServer {
  import opened Wrappers
  import opened Strings
  import opened Paths

  /** `ALLOWED_DOCS`. */
  const DocFormats: set<string> := {"pdf", "docx", "doc", "txt", "jpg", "jpeg", "png", "msg", "eml"}

  /** `ALL_ALLOWED`: the configured audio formats and the document formats. */
  function AllAllowed(audio: set<string>): set<string> {
    audio + DocFormats
  }

  /** `allowed_file`: a dot, and the text after the last dot, lower-cased, is allowed. */
  predicate AllowedFile(filename: string, audio: set<string>) {
    '.' in filename
    && Lower(filename[LastIndexOf(filename, '.') + 1..]) in AllAllowed(audio)
  }

  /** A name without a dot is never allowed. */
  lemma AllowedNeedsDot(filename: string, audio: set<string>)
    requires '.' !in filename
    ensures !AllowedFile(filename, audio)
  {
  }

  /** A name is allowed exactly when its last extension, lower-cased, is an audio or document format. */
  lemma AllowedFileIff(base: string, ext: string, audio: set<string>)
    requires '.' !in ext
    ensures AllowedFile(base + "." + ext, audio) <==> Lower(ext) in audio || Lower(ext) in DocFormats
  {
    var f := base + "." + ext;
    forall k | |base| < k < |f| ensures f[k] != '.' {
      assert f[k] == ext[k - |base| - 1];
    }
    LastIndexOfIs(f, '.', |base|);
    assert f[|base| + 1..] == ext;
  }

  // ---------------------------------------------------------------------------
  // Folder names
  // ---------------------------------------------------------------------------

  /** The characters the sanitiser keeps. */
  predicate Keep(c: char) { IsAlnum(c) || c == ' ' || c == '-' || c == '_' }

  /** `"".join(c for c in name if c.isalnum() or c in (' ', '-', '_'))`. */
  function Sanitise(s: string): string {
    if s == [] then [] else (if Keep(s[0]) then [s[0]] else []) + Sanitise(s[1..])
  }

  /** `a` is `b` with some characters dropped. */
  predicate IsSubsequence(a: string, b: string)
    decreases |b|
  {
    if a == [] then true
    else if b == [] then false
    else (a[0] == b[0] && IsSubsequence(a[1..], b[1..])) || IsSubsequence(a, b[1..])
  }

  /** The sanitised name is a subsequence of the name: its characters in their original order. */
  lemma {:induction false} SanitiseSubsequence(s: string)
    ensures IsSubsequence(Sanitise(s), s)
  {
    if s != [] {
      SanitiseSubsequence(s[1..]);
      if Keep(s[0]) {
        assert ([s[0]] + Sanitise(s[1..]))[1..] == Sanitise(s[1..]);
      } else {
        assert [] + Sanitise(s[1..]) == Sanitise(s[1..]);
      }
    }
  }

  /** A character survives exactly when it occurs in the name and is kept. */
  lemma {:induction false} SanitiseMembers(s: string)
    ensures forall c :: c in Sanitise(s) <==> c in s && Keep(c)
  {
    if s != [] {
      SanitiseMembers(s[1..]);
      assert s == [s[0]] + s[1..];
    }
  }

  /** A name is left as it is exactly when every character is kept. */
  lemma {:induction false} SanitiseFixed(s: string)
    ensures Sanitise(s) == s <==> forall i :: 0 <= i < |s| ==> Keep(s[i])
  {
    if s != [] {
      SanitiseFixed(s[1..]);
      SanitiseLength(s[1..]);
      if forall i :: 0 <= i < |s| ==> Keep(s[i]) {
        assert forall i :: 0 <= i < |s[1..]| ==> Keep(s[1..][i]) by {
          forall i | 0 <= i < |s[1..]| ensures Keep(s[1..][i]) {
            assert s[1..][i] == s[i + 1];
          }
        }
        assert s == [s[0]] + s[1..];
      }
      if Sanitise(s) == s {
        assert Keep(s[0]);
        assert Sanitise(s[1..]) == s[1..];
        forall i | 0 <= i < |s| ensures Keep(s[i]) {
          if i > 0 { assert s[i] == s[1..][i - 1]; }
        }
      }
    }
  }

  lemma {:induction false} SanitiseLength(s: string)
    ensures |Sanitise(s)| <= |s|
  {
    if s != [] { SanitiseLength(s[1..]); }
  }

  /** Sanitising twice changes nothing more. */
  lemma SanitiseIdempotent(s: string)
    ensures Sanitise(Sanitise(s)) == Sanitise(s)
  {
    SanitiseMembers(s);
    var t := Sanitise(s);
    forall i | 0 <= i < |t| ensures Keep(t[i]) {
      assert t[i] in t;
    }
    SanitiseFixed(t);
  }

  // ---------------------------------------------------------------------------
  // The disk and `mkdir`
  // ---------------------------------------------------------------------------

  datatype Disk = Disk(dirs: set<seq<string>>, files: set<seq<string>>)

  datatype Response =
    | Created(path: seq<string>)
    | Uploaded(filename: string)
    | Failure(status: nat, error: string)

  const FileExists: string := "File exists"
  const NotADirectory: string := "Not a directory"

  /** The directory `p` and all its ancestors below the input folder. */
  function Prefixes(p: seq<string>): set<seq<string>> {
    set k | 0 <= k <= |p| :: p[..k]
  }

  /** Some proper ancestor of `p` is a file. */
  predicate BlockedByFile(d: Disk, p: seq<string>) {
    exists k :: 0 <= k < |p| && p[..k] in d.files
  }

  /**
   * `path.mkdir(parents=True, exist_ok=...)`: an existing file, or an
   * existing directory unless `existOk`, raises `FileExistsError`; a file
   * on the way raises `NotADirectoryError`; otherwise the directory and its
   * missing ancestors are created.
   */
  function Mkdir(d: Disk, p: seq<string>, existOk: bool): (r: Result<Disk>)
    ensures r.Ok? ==> p in r.value.dirs && r.value.files == d.files && d.dirs <= r.value.dirs
  {
    if p in d.files then Err(FileExists)
    else if p in d.dirs then (if existOk then Ok(d) else Err(FileExists))
    else if BlockedByFile(d, p) then Err(NotADirectory)
    else
      assert p == p[..|p|];
      Ok(Disk(d.dirs + Prefixes(p), d.files))
  }

  // ---------------------------------------------------------------------------
  // `create_folder`
  // ---------------------------------------------------------------------------

  /** The folder `create_folder` tries to make: the parent itself when the name sanitises to nothing. */
  function Target(parent: seq<string>, name: string): seq<string> {
    var clean := Sanitise(Strip(name));
    if clean == [] then parent else parent + [clean]
  }

  /** `create_folder`, with the parent already split into components. */
  function CreateFolder(d: Disk, parent: seq<string>, name: string): (r: (Response, Disk))
    ensures r.0.Created? ==> r.0.path == Target(parent, name) && Strip(name) != []
    ensures r.0.Failure? ==> r.1 == d
  {
    if Strip(name) == [] then (Failure(400, "Folder name required"), d)
    else
      var target := Target(parent, name);
      match Mkdir(d, target, false)
      case Err(e) => (if e == FileExists then Failure(400, "Folder already exists") else Failure(500, e), d)
      case Ok(d') => (Created(target), d')
  }

  /** A name that is empty after stripping is refused before anything else. */
  lemma CreateNeedsName(d: Disk, parent: seq<string>, name: string)
    requires Strip(name) == []
    ensures CreateFolder(d, parent, name) == (Failure(400, "Folder name required"), d)
  {
  }

  /** A name with no kept character names the parent, which already exists. */
  lemma CreateSanitisedAway(d: Disk, parent: seq<string>, name: string)
    requires Strip(name) != [] && Sanitise(Strip(name)) == [] && parent in d.dirs
    ensures CreateFolder(d, parent, name) == (Failure(400, "Folder already exists"), d)
  {
  }

  /**
   * A folder is created exactly when the name is not blank, nothing exists
   * at the target and no file stands in its way; the new folder and its
   * ancestors are then directories and nothing else changes.
   */
  lemma CreateFolderIff(d: Disk, parent: seq<string>, name: string)
    ensures var target := Target(parent, name);
      (CreateFolder(d, parent, name).0.Created? <==>
        Strip(name) != [] && target !in d.files && target !in d.dirs && !BlockedByFile(d, target))
    ensures var (resp, d') := CreateFolder(d, parent, name);
      resp.Created? ==> d' == Disk(d.dirs + Prefixes(resp.path), d.files)
  {
  }

  // ---------------------------------------------------------------------------
  // `upload_file`
  // ---------------------------------------------------------------------------

  /** The extension the transcription trigger looks at: `filepath.suffix[1:]`. */
  function TriggerExt(filepath: Path): string {
    var s := filepath.Suffix();
    if s == [] then [] else s[1..]
  }

  /**
   * `upload_file`: the response, whether the audio trigger fired, and the
   * new disk.  `hasFile` says whether the request holds a `file` part.
   */
  function UploadFile(d: Disk, hasFile: bool, filename: string, folder: seq<string>, audio: set<string>)
    : (r: (Response, bool, Disk))
    ensures r.1 ==> r.0.Uploaded?
    ensures !r.0.Uploaded? ==> r.2 == d
  {
    if !hasFile then (Failure(400, "No file provided"), false, d)
    else if filename == [] then (Failure(400, "No file selected"), false, d)
    else if !AllowedFile(filename, audio) then (Failure(400, "File type not allowed"), false, d)
    else match Mkdir(d, folder, true)
      case Err(e) => (Failure(500, e), false, d)
      case Ok(d') =>
        var filepath := folder + [filename];
        if filepath in d'.dirs then (Failure(500, "Is a directory"), false, d)
        else
          var trigger := Lower(TriggerExt(Path(folder, filename))) in audio;
          (Uploaded(filename), trigger, Disk(d'.dirs, d'.files + {filepath}))
  }

  /** The checks run in order: a missing file part, an empty name, a refused type. */
  lemma UploadCheckOrder(d: Disk, hasFile: bool, filename: string, folder: seq<string>, audio: set<string>)
    ensures !hasFile ==> UploadFile(d, hasFile, filename, folder, audio).0 == Failure(400, "No file provided")
    ensures hasFile && filename == [] ==>
      UploadFile(d, hasFile, filename, folder, audio).0 == Failure(400, "No file selected")
    ensures hasFile && filename != [] && !AllowedFile(filename, audio) ==>
      UploadFile(d, hasFile, filename, folder, audio).0 == Failure(400, "File type not allowed")
    ensures UploadFile(d, hasFile, filename, folder, audio).0.Uploaded? ==>
      hasFile && filename != [] && AllowedFile(filename, audio)
      && folder + [filename] in UploadFile(d, hasFile, filename, folder, audio).2.files
  {
  }

  /**
   * For a name `base.ext` with a non-empty base, the trigger fires exactly
   * when the lower-cased extension is an audio format; such a name is
   * always allowed.
   */
  lemma UploadTriggerIff(d: Disk, base: string, ext: string, folder: seq<string>, audio: set<string>)
    requires base != [] && ext != [] && '.' !in ext
    ensures var r := UploadFile(d, true, base + "." + ext, folder, audio);
      r.0.Uploaded? ==> (r.1 <==> Lower(ext) in audio)
    ensures Lower(ext) in audio ==> AllowedFile(base + "." + ext, audio)
  {
    AllowedFileIff(base, ext, audio);
    TriggerExtOf(folder, base, ext);
  }

  lemma TriggerExtOf(folder: seq<string>, base: string, ext: string)
    requires base != [] && ext != [] && '.' !in ext
    ensures TriggerExt(Path(folder, base + "." + ext)) == ext
  {
    NameParts(Path(folder, base + "." + ext), base, "." + ext);
    assert ("." + ext)[1..] == ext;
  }

  /** A dot-file such as `.mp3` is accepted, but its `suffix` is empty, so the trigger does not fire. */
  lemma DotFileNotTriggered(audio: set<string>)
    requires "mp3" in audio && "" !in audio
    ensures var r := UploadFile(Disk({}, {}), true, ".mp3", [], audio);
      r.0 == Uploaded(".mp3") && !r.1
  {
    AllowedFileIff([], "mp3", audio);
    assert [] + "." + "mp3" == ".mp3";
    assert Lower("mp3") == "mp3";
    assert LastIndexOf(".mp3", '.') == 0;
    assert Path([], ".mp3").Suffix() == [];
    assert Lower([]) == [];
  }
}
