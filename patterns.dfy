/**
  Pattern resolution: comma-separated pattern strings become sets of glob
  patterns (main.py `get_patterns`, `get_gitignore_patterns`, and the rewrite
  of the exclude string in `validate_arguments`).
 */
module Patterns {
  import opened Wrappers
  import opened Strings
  import opened Paths
  import opened Host

  /** The default of `get_patterns`, and of `--include`: match everything. */
  const DefaultPattern: Pattern := "*"

  /** The pattern always added to the excludes so `.git` is never selected. */
  const GitExclude: Pattern := ".git/**/*"

  function Elements(s: seq<string>): set<string>
  {
    set x | x in s
  }

  lemma SplitSegmentsAll(s: string, sep: char)
    ensures forall x :: x in Split(s, sep) <==> IsSegment(s, sep, x)
  {
    forall x ensures x in Split(s, sep) <==> IsSegment(s, sep, x) {
      SplitSegments(s, sep, x);
    }
  }

  /**
    `get_patterns(pattern_str, default_pattern)`: the default alone for an
    empty string, otherwise exactly the comma-separated segments, untrimmed,
    empty ones included, duplicates collapsed.
   */
  function GetPatterns(patternStr: string, defaultPattern: Pattern): (r: set<Pattern>)
    ensures patternStr == "" ==> r == {defaultPattern}
    ensures patternStr != "" ==> forall x :: x in r <==> IsSegment(patternStr, ',', x)
    ensures patternStr != "" ==> forall x :: x in r ==> ',' !in x
  {
    if patternStr == "" then {defaultPattern}
    else
      SplitSegmentsAll(patternStr, ',');
      Elements(Split(patternStr, ','))
  }

  /** `get_gitignore_patterns(directory)`: a placeholder that finds nothing. */
  function GetGitignorePatterns(directory: Path): (r: set<Pattern>)
    ensures r == {}
  {
    {}
  }

  /** The ignore-file seam adds nothing to an exclude set. */
  lemma GitignoreAddsNothing(exclude: set<Pattern>, directory: Path)
    ensures exclude + GetGitignorePatterns(directory) == exclude
  {
  }

  /** Python truthiness of `args.exclude`: neither `None` nor "". */
  predicate Given(s: Option<string>)
    ensures Given(s) <==> s != None && s != Some("")
  {
    s.Some? && s.value != ""
  }

  /** The `.git` pattern alone resolves to itself. */
  lemma ResolveGitExclude()
    ensures GetPatterns(GitExclude, DefaultPattern) == {GitExclude}
  {
    GitExcludeAlone();
    assert Elements([GitExclude]) == {GitExclude};
  }

  /** Appending a comma and the `.git` pattern to a non-empty string adds exactly that pattern. */
  lemma ResolveAppended(s: string)
    requires s != ""
    ensures GetPatterns(s + ",.git/**/*", DefaultPattern)
         == GetPatterns(s, DefaultPattern) + {GitExclude}
  {
    SplitAppended(s);
    PatternsOfSplit(s);
    PatternsOfSplit(s + ",.git/**/*");
    ElementsAppend(Split(s, ','), GitExclude);
  }

  lemma SplitAppended(s: string)
    ensures Split(s + ",.git/**/*", ',') == Split(s, ',') + [GitExclude]
  {
    assert s + ",.git/**/*" == s + [','] + GitExclude;
    SplitAppend(s, GitExclude, ',');
    GitExcludeAlone();
  }

  /** The `.git` pattern holds no comma, so it splits to itself. */
  lemma GitExcludeAlone()
    ensures Split(GitExclude, ',') == [GitExclude]
  {
    assert ',' !in GitExclude;
    SplitNoSeparator(GitExclude, ',');
  }

  lemma PatternsOfSplit(s: string)
    requires s != ""
    ensures GetPatterns(s, DefaultPattern) == Elements(Split(s, ','))
  {
  }

  lemma ElementsAppend(xs: seq<string>, x: string)
    ensures Elements(xs + [x]) == Elements(xs) + {x}
  {
  }

  /**
    The exclude string after `validate_arguments`: the user's string followed
    by a comma and the `.git` pattern, or the `.git` pattern alone when none
    was given. Either way the resolved set is the user's patterns plus the
    `.git` pattern.
   */
  function MergeExclude(exclude: Option<string>): (r: string)
    ensures r != ""
    ensures Given(exclude) ==> |exclude.value| < |r| && r[..|exclude.value|] == exclude.value
    ensures GitExclude in GetPatterns(r, DefaultPattern)
    ensures Given(exclude) ==>
      GetPatterns(r, DefaultPattern) == GetPatterns(exclude.value, DefaultPattern) + {GitExclude}
    ensures !Given(exclude) ==> GetPatterns(r, DefaultPattern) == {GitExclude}
  {
    if Given(exclude) then
      ResolveAppended(exclude.value);
      var r := exclude.value + ",.git/**/*";
      assert r[..|exclude.value|] == exclude.value;
      r
    else
      ResolveGitExclude();
      GitExclude
  }
}
