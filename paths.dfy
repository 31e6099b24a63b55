/**
 * `pathlib.Path` as the scripts use it: a directory (a sequence of components)
 * and a final name, with `name`, `suffix`, `stem`, `with_suffix`, `parent`,
 * joining and `relative_to`.  A file system is a finite set of file paths.
 */
module Paths {

  import opened Wrappers
  import opened Strings

  datatype Path = Path(dir: seq<string>, name: string)
  {
    /** All components, `path.parts`. */
    function Parts(): seq<string> { dir + [name] }

    /** `path.parent` (the parent of a top-level name is the empty directory). */
    function Parent(): seq<string> { dir }

    /** `path.suffix`: from the last dot, unless the dot is first or last. */
    function Suffix(): (r: string)
      ensures r == [] || (r[0] == '.' && |r| >= 2 && EndsWith(name, r))
      ensures r != [] ==> '.' !in r[1..]
    {
      var i := LastIndexOf(name, '.');
      if 0 < i < |name| - 1 then name[i..] else []
    }

    /** `path.stem`: the name without its suffix. */
    function Stem(): (r: string)
      ensures r + Suffix() == name
    {
      var i := LastIndexOf(name, '.');
      if 0 < i < |name| - 1 then name[..i] else name
    }

    /**
     * `path.with_suffix(suffix)` on a POSIX path, which raises `ValueError`
     * when the suffix holds a separator, does not start with a dot, is a lone
     * dot, or when the name is empty.
     */
    function WithSuffix(suffix: string): (r: Result<Path>)
      ensures r.Ok? <==> name != [] && '/' !in suffix && (suffix == [] || (suffix[0] == '.' && suffix != "."))
      ensures r.Ok? ==> r.value == Path(dir, Stem() + suffix)
    {
      if '/' in suffix then Err("Invalid suffix")
      else if suffix != [] && (suffix[0] != '.' || suffix == ".") then Err("Invalid suffix")
      else if name == [] then Err("has an empty name")
      else Ok(Path(dir, Stem() + suffix))
    }

    /** `path.with_name(n)`. */
    function WithName(n: string): (r: Path)
      ensures r.dir == dir && r.name == n
    {
      Path(dir, n)
    }
  }

  /** `Path(*d) / n`. */
  function Child(d: seq<string>, n: string): (p: Path)
    ensures p.Parts() == d + [n]
  {
    Path(d, n)
  }

  /** Files of the file system lying anywhere below directory `d`. */
  function FilesUnder(fs: set<Path>, d: seq<string>): (r: set<Path>)
    ensures r <= fs
    ensures forall p :: p in r <==> p in fs && |d| <= |p.dir| && p.dir[..|d|] == d
  {
    set p | p in fs && |d| <= |p.dir| && p.dir[..|d|] == d
  }

  /** Files lying directly in directory `d`, `d.glob("*")` restricted to files. */
  function FilesIn(fs: set<Path>, d: seq<string>): (r: set<Path>)
    ensures r <= fs
    ensures forall p :: p in r <==> p in fs && p.dir == d
  {
    set p | p in fs && p.dir == d
  }

  /** Names of the immediate sub-directories of `d` that hold at least one file. */
  function SubdirNames(fs: set<Path>, d: seq<string>): (r: set<string>)
    ensures forall n :: n in r <==> exists p :: p in fs && |p.dir| > |d| && p.dir[..|d|] == d && p.dir[|d|] == n
  {
    set p, k | p in fs && k == |d| && |p.dir| > k && p.dir[..k] == d :: p.dir[k]
  }

  /** `path.relative_to(base)`, which raises `ValueError` when `path` is not below `base`. */
  function RelativeTo(p: Path, base: seq<string>): (r: Result<seq<string>>)
    ensures r.Ok? <==> |base| <= |p.dir| && p.dir[..|base|] == base
    ensures r.Ok? ==> base + r.value + [p.name] == p.Parts()
  {
    if |base| <= |p.dir| && p.dir[..|base|] == base then Ok(p.dir[|base|..])
    else Err("is not in the subpath")
  }

  lemma {:induction false} LastIndexOfIs(s: string, c: char, i: nat)
    requires i < |s| && s[i] == c
    requires forall k :: i < k < |s| ==> s[k] != c
    ensures LastIndexOf(s, c) == i
  {
    if s[|s| - 1] != c {
      LastIndexOfIs(s[..|s| - 1], c, i);
    }
  }

  /** A valid suffix replaces the suffix and keeps the stem. */
  lemma StemOfWithSuffix(p: Path, suffix: string)
    requires p.WithSuffix(suffix).Ok? && |suffix| >= 2 && '.' !in suffix[1..] && p.Stem() != []
    ensures p.WithSuffix(suffix).value.Suffix() == suffix
    ensures p.WithSuffix(suffix).value.Stem() == p.Stem()
  {
    var n := p.Stem() + suffix;
    var i := |p.Stem()|;
    forall k | i < k < |n| ensures n[k] != '.' {
      assert n[k] == suffix[1..][k - i - 1];
    }
    LastIndexOfIs(n, '.', i);
  }

  /** A non-empty name has a non-empty stem. */
  lemma StemNonEmpty(p: Path)
    requires p.name != []
    ensures p.Stem() != []
  {
  }

  /** A suffix such as `.md`: a dot, then at least one character, none of them a dot or a separator. */
  predicate Dotted(ext: string) {
    |ext| >= 2 && ext[0] == '.' && '.' !in ext[1..] && '/' !in ext
  }

  /** `with_suffix` with a dotted suffix succeeds on a named path, and the new path has that suffix. */
  lemma WithSuffixDotted(p: Path, ext: string)
    requires p.name != [] && Dotted(ext)
    ensures p.WithSuffix(ext) == Ok(Path(p.dir, p.Stem() + ext))
    ensures Path(p.dir, p.Stem() + ext).Suffix() == ext
  {
    assert ext != ".";
    StemNonEmpty(p);
    NameParts(Path(p.dir, p.Stem() + ext), p.Stem(), ext);
  }

  /** A name made of a non-empty base and a dotted extension without further dots has that extension as suffix and the base as stem. */
  lemma NameParts(p: Path, base: string, ext: string)
    requires p.name == base + ext && base != [] && |ext| >= 2 && ext[0] == '.' && '.' !in ext[1..]
    ensures p.Suffix() == ext && p.Stem() == base
  {
    var i := |base|;
    forall k | i < k < |p.name| ensures p.name[k] != '.' {
      assert p.name[k] == ext[1..][k - i - 1];
    }
    LastIndexOfIs(p.name, '.', i);
  }
}
