/**
  File discovery (main.py `get_file_paths`): the regular files matched by some
  include pattern, minus the regular files matched by some exclude pattern.
 */
module Discovery {
  import opened Paths
  import opened Host

  /** Reference definition: `p` is a regular file that some pattern in `patterns` reaches. */
  ghost predicate MatchedBy(fs: FileSystem, root: Path, patterns: set<Pattern>, p: Path)
  {
    fs.isFile(p) && exists pattern :: pattern in patterns && p in fs.rglob(root, pattern)
  }

  /** Reference definition of a selected file: included and not excluded. */
  ghost predicate Selected(fs: FileSystem, root: Path, includes: set<Pattern>,
                           excludes: set<Pattern>, p: Path)
  {
    MatchedBy(fs, root, includes, p) && !MatchedBy(fs, root, excludes, p)
  }

  /** The set comprehension both halves of `get_file_paths` use. */
  function MatchedFiles(fs: FileSystem, root: Path, patterns: set<Pattern>): (r: set<Path>)
    ensures forall p :: p in r <==> MatchedBy(fs, root, patterns, p)
  {
    set pattern, p | pattern in patterns && p in fs.rglob(root, pattern) && fs.isFile(p) :: p
  }

  /** `get_file_paths(directory, include_patterns, exclude_patterns)`. */
  function GetFilePaths(fs: FileSystem, root: Path, includes: set<Pattern>,
                        excludes: set<Pattern>): (r: set<Path>)
    ensures forall p :: p in r <==> Selected(fs, root, includes, excludes, p)
    ensures r <= MatchedFiles(fs, root, includes)
    ensures r !! MatchedFiles(fs, root, excludes)
    ensures forall p :: p in r ==> fs.isFile(p)
  {
    MatchedFiles(fs, root, includes) - MatchedFiles(fs, root, excludes)
  }

  /** Matching a union of pattern sets is the union of the matches. */
  lemma MatchedFilesUnion(fs: FileSystem, root: Path, a: set<Pattern>, b: set<Pattern>)
    ensures MatchedFiles(fs, root, a + b) == MatchedFiles(fs, root, a) + MatchedFiles(fs, root, b)
  {
    forall p | p in MatchedFiles(fs, root, a + b)
      ensures p in MatchedFiles(fs, root, a) + MatchedFiles(fs, root, b)
    {
      var pattern :| pattern in a + b && p in fs.rglob(root, pattern);
      if pattern in a {
        assert MatchedBy(fs, root, a, p);
      } else {
        assert MatchedBy(fs, root, b, p);
      }
    }
  }

  /** Excluding more never selects more. */
  lemma ExcludeAntitone(fs: FileSystem, root: Path, includes: set<Pattern>,
                        excludes: set<Pattern>, more: set<Pattern>)
    requires excludes <= more
    ensures GetFilePaths(fs, root, includes, more) <= GetFilePaths(fs, root, includes, excludes)
  {
  }

  /** Including more never selects less. */
  lemma IncludeMonotone(fs: FileSystem, root: Path, includes: set<Pattern>,
                        more: set<Pattern>, excludes: set<Pattern>)
    requires includes <= more
    ensures GetFilePaths(fs, root, includes, excludes) <= GetFilePaths(fs, root, more, excludes)
  {
    forall p | p in GetFilePaths(fs, root, includes, excludes)
      ensures p in GetFilePaths(fs, root, more, excludes)
    {
      var pattern :| pattern in includes && p in fs.rglob(root, pattern);
      assert MatchedBy(fs, root, more, p);
    }
  }

  /**
    Adding one exclude pattern removes exactly the files that pattern reaches;
    so adding a pattern already present changes nothing.
   */
  lemma AddExcludePattern(fs: FileSystem, root: Path, includes: set<Pattern>,
                          excludes: set<Pattern>, pattern: Pattern)
    ensures GetFilePaths(fs, root, includes, excludes + {pattern})
         == GetFilePaths(fs, root, includes, excludes) - MatchedFiles(fs, root, {pattern})
  {
    MatchedFilesUnion(fs, root, excludes, {pattern});
  }

  /**
    The single-walk alternative, keeping the included files that no exclude
    pattern reaches by `rglob`, selects the same files as the two scans.
   */
  lemma SingleWalkEquivalent(fs: FileSystem, root: Path, includes: set<Pattern>,
                             excludes: set<Pattern>)
    ensures GetFilePaths(fs, root, includes, excludes)
         == set p | p in MatchedFiles(fs, root, includes)
                    && forall pattern :: pattern in excludes ==> p !in fs.rglob(root, pattern)
  {
  }
}
