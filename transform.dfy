/**
  Content transform (main.py `minify_file`, `minify_files`): every selected
  file is read; Python sources are replaced by their minified text, every other
  file keeps its raw text.
 */
module Transform {
  import opened Wrappers
  import opened Paths
  import opened Host

  /** An entry of the dictionary `minify_files` builds: a path and its content. */
  type Entry = (Path, string)

  /** `minify_file(file_path)`: the path and its (possibly minified) content. */
  function MinifyFile(fs: FileSystem, minify: Minifier, p: Path): (r: Result<Entry, Error>)
    ensures r.Success? ==> r.value.0 == p
    ensures r.Success? <==>
      fs.readText(p).Some? && (IsPythonSource(p) ==> minify(fs.readText(p).value).Some?)
    ensures r.Success? && !IsPythonSource(p) ==> r.value.1 == fs.readText(p).value
    ensures r.Success? && IsPythonSource(p) ==> r.value.1 == minify(fs.readText(p).value).value
    ensures r.Failure? ==>
      r.error == if fs.readText(p).None? then Unreadable(p) else MinifyFailed(p)
  {
    match fs.readText(p)
    case None => Failure(Unreadable(p))
    case Some(raw) =>
      if !IsPythonSource(p) then Success((p, raw))
      else
        match minify(raw)
        case None => Failure(MinifyFailed(p))
        case Some(m) => Success((p, m))
  }

  /** The keys of an insertion-ordered dictionary given as its entries. */
  function Keys(entries: seq<Entry>): (r: seq<Path>)
    ensures |r| == |entries|
    ensures forall i :: 0 <= i < |entries| ==> r[i] == entries[i].0
  {
    seq(|entries|, i requires 0 <= i < |entries| => entries[i].0)
  }

  predicate Distinct<T(==)>(s: seq<T>)
  {
    forall i, j :: 0 <= i < j < |s| ==> s[i] != s[j]
  }

  /**
    `minify_files(file_paths)`, with the set given in the order Python iterates
    it. The entries come in that order; the first file that cannot be read or
    minified aborts the whole run.
   */
  function MinifyFiles(fs: FileSystem, minify: Minifier, paths: seq<Path>): (r: Result<seq<Entry>, Error>)
    ensures r.Success? <==> forall i :: 0 <= i < |paths| ==> MinifyFile(fs, minify, paths[i]).Success?
    ensures r.Success? ==> Keys(r.value) == paths
    ensures r.Success? ==> forall i :: 0 <= i < |paths| ==>
      MinifyFile(fs, minify, paths[i]) == Success(r.value[i])
    ensures r.Failure? ==>
      exists i :: 0 <= i < |paths| && MinifyFile(fs, minify, paths[i]) == Failure(r.error)
                  && forall j :: 0 <= j < i ==> MinifyFile(fs, minify, paths[j]).Success?
  {
    Collect(paths, p => MinifyFile(fs, minify, p))
  }

  /**
    The dictionary `minify_files` returns has exactly the input paths as keys,
    each once, and a non-Python file's value is its raw text.
   */
  lemma MinifyFilesEntries(fs: FileSystem, minify: Minifier, paths: seq<Path>)
    requires Distinct(paths)
    requires MinifyFiles(fs, minify, paths).Success?
    ensures var entries := MinifyFiles(fs, minify, paths).value;
      && Distinct(Keys(entries))
      && (set e | e in entries :: e.0) == (set p | p in paths)
      && forall i :: 0 <= i < |entries| && !IsPythonSource(paths[i]) ==>
           entries[i] == (paths[i], fs.readText(paths[i]).value)
  {
    var entries := MinifyFiles(fs, minify, paths).value;
    forall p | p in paths ensures p in set e | e in entries :: e.0 {
      var i :| 0 <= i < |paths| && paths[i] == p;
      assert entries[i].0 == p;
    }
  }

  /** Two files that both transform give the two entries, in order. */
  lemma MinifyTwo(fs: FileSystem, minify: Minifier, paths: seq<Path>, first: Entry, second: Entry)
    requires |paths| == 2
    requires MinifyFile(fs, minify, paths[0]) == Success(first)
    requires MinifyFile(fs, minify, paths[1]) == Success(second)
    ensures MinifyFiles(fs, minify, paths).Success?
    ensures MinifyFiles(fs, minify, paths).value == [first, second]
  {
    forall i | 0 <= i < |paths| ensures MinifyFile(fs, minify, paths[i]).Success? {
      assert i == 0 || i == 1;
    }
    var entries := MinifyFiles(fs, minify, paths).value;
    assert |entries| == |Keys(entries)| == 2;
    assert entries[0] == first && entries[1] == second;
  }
}
