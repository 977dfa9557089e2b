/**
  A worked run: a project `proj` holding `a.py` and `b.txt`, include "*", no
  exclude, instruction "refactor this". Both files are selected, the Python
  file is minified, the text file passes through unchanged, and the prompt
  holds the two blocks in whichever order the set is iterated.
 */
module Sample {
  import opened Wrappers
  import opened Paths
  import opened Host
  import opened Patterns
  import opened Discovery
  import opened Transform
  import opened Assembly
  import opened Pipeline

  const Root: Path := Path(["proj"])
  const A: Path := Path(["proj", "a.py"])
  const B: Path := Path(["proj", "b.txt"])
  const ASource: string := "x = 1\n"
  const BText: string := "hello\n"
  const Instruction: string := "refactor this"

  /**
    The tree: from the root, `rglob` with "*" reaches the two files, with "**"
    the root directory itself as well, and every other pattern nothing. For
    "**" it follows Python 3.13 and later, where a trailing "**" matches files
    too; up to 3.12 it matches directories only and would yield the root alone.
   */
  function Tree(): FileSystem
  {
    FileSystem(
      p => p == Root,
      p => p == A || p == B,
      (r: Path, pattern: Pattern) =>
        if r == Root && pattern == "*" then {A, B}
        else if r == Root && pattern == "**" then {Root, A, B}
        else {},
      p => if p == A then Some(ASource) else if p == B then Some(BText) else None)
  }

  lemma FilesDiffer()
    ensures A != B
  {
    assert A.parts[1][0] != B.parts[1][0];
  }

  /** The sample tree is a real file system in the sense of `WellFormed`. */
  lemma TreeWellFormed()
    ensures WellFormed(Tree())
  {
    var fs := Tree();
    forall root, pattern, p | p in fs.rglob(root, pattern) && fs.isFile(p)
      ensures StrictlyUnder(p, root) && ValidBelow(p, root)
    {
      assert root == Root && (p == A || p == B) by {
        assert Root != A && Root != B by {
          assert |Root.parts| != |A.parts| && |Root.parts| != |B.parts|;
        }
      }
      assert A.parts[..1] == ["proj"] && B.parts[..1] == ["proj"];
    }
  }

  /** "*" reaches both files from the root. */
  lemma MatchedAll()
    ensures MatchedFiles(Tree(), Root, {"*"}) == {A, B}
  {
    var fs := Tree();
    assert fs.rglob(Root, "*") == {A, B};
    forall p ensures p in MatchedFiles(fs, Root, {"*"}) <==> p in {A, B} {
      assert MatchedBy(fs, Root, {"*"}, p) <==> p in fs.rglob(Root, "*") && fs.isFile(p);
    }
  }

  /** The `.git` pattern reaches nothing. */
  lemma MatchedGit()
    ensures MatchedFiles(Tree(), Root, {GitExclude}) == {}
  {
    var fs := Tree();
    assert GitExclude != "*" && GitExclude != "**";
    assert fs.rglob(Root, GitExclude) == {};
    forall p ensures p !in MatchedFiles(fs, Root, {GitExclude}) {
      assert MatchedBy(fs, Root, {GitExclude}, p) <==> p in fs.rglob(Root, GitExclude) && fs.isFile(p);
    }
  }

  /** Include "*" without excludes selects both files. */
  lemma Selected()
    ensures GetPatterns(MergeExclude(None), DefaultPattern) == {GitExclude}
    ensures Selection(Tree(), Root, "*", MergeExclude(None)) == {A, B}
  {
    IncludeAll();
    GitignoreAddsNothing(GetPatterns(MergeExclude(None), DefaultPattern), Root);
    SelectedBy(GetPatterns("*", DefaultPattern),
               GetPatterns(MergeExclude(None), DefaultPattern) + GetGitignorePatterns(Root));
  }

  /** The include string "*" is the single pattern "*". */
  lemma IncludeAll()
    ensures GetPatterns("*", DefaultPattern) == {"*"}
  {
    Strings.SplitNoSeparator("*", ',');
    PatternsOfSplit("*");
    assert Elements(["*"]) == {"*"};
  }

  lemma SelectedBy(includes: set<Pattern>, excludes: set<Pattern>)
    requires includes == {"*"} && excludes == {GitExclude}
    ensures GetFilePaths(Tree(), Root, includes, excludes) == {A, B}
  {
    MatchedAll();
    MatchedGit();
  }

  /** Both iteration orders enumerate the selection. */
  lemma Orders(order: seq<Path>)
    requires order == [A, B] || order == [B, A]
    ensures Enumerates(order, Selection(Tree(), Root, "*", MergeExclude(None)))
  {
    Selected();
    EnumeratesBoth(order);
  }

  lemma EnumeratesBoth(order: seq<Path>)
    requires order == [A, B] || order == [B, A]
    ensures Enumerates(order, {A, B})
  {
    FilesDiffer();
    if order == [A, B] {
      assert forall p :: p in order <==> p == A || p == B;
    } else {
      assert forall p :: p in order <==> p == A || p == B;
    }
  }

  /** `a.py` is minified and `b.txt` passes through unchanged. */
  lemma Transformed(minify: Minifier)
    requires minify(ASource).Some?
    ensures MinifyFile(Tree(), minify, A) == Success((A, minify(ASource).value))
    ensures MinifyFile(Tree(), minify, B) == Success((B, BText))
  {
    PythonSourceByName(A);
    PythonSourceByName(B);
    FilesDiffer();
    assert "b.txt"[2..] != ".py";
  }

  /** The labels of the two files. */
  lemma Labels()
    ensures RelName(Root, A) == Some("a.py")
    ensures RelName(Root, B) == Some("b.txt")
  {
    assert A.parts[1..] == ["a.py"];
    assert B.parts[1..] == ["b.txt"];
  }

  /** The trailer written out. */
  lemma TrailerSpelled(pre: string)
    ensures pre + Trailer(Instruction, DefaultFooter) == pre + ".\nrefactor this\n" + DefaultFooter
  {
    assert ".\n" + Instruction + "\n" == ".\nrefactor this\n";
  }

  /**
    The run's prompt: the header line, the block of the file iterated first,
    a newline, the block of the other file, then ".", the instruction and the
    footer.
   */
  lemma Run(minify: Minifier, order: seq<Path>)
    requires minify(ASource).Some?
    requires order == [A, B] || order == [B, A]
    ensures Enumerates(order, Selection(Tree(), Root, "*", MergeExclude(None)))
    ensures var blockA := CreateFileStr("a.py", minify(ASource).value);
      var blockB := CreateFileStr("b.txt", BText);
      var out := BuildPrompt(Tree(), minify, Root, "*", MergeExclude(None), Instruction, order);
      && (order == [A, B] ==>
            out == Success(DefaultHeader + "\n" + blockA + "\n" + blockB + ".\nrefactor this\n" + DefaultFooter))
      && (order == [B, A] ==>
            out == Success(DefaultHeader + "\n" + blockB + "\n" + blockA + ".\nrefactor this\n" + DefaultFooter))
  {
    Orders(order);
    Transformed(minify);
    Labels();
    var blockA := CreateFileStr("a.py", minify(ASource).value);
    var blockB := CreateFileStr("b.txt", BText);
    if order == [A, B] {
      TwoFilesPrompt(Tree(), minify, Root, "*", MergeExclude(None), Instruction, order,
                     (A, minify(ASource).value), (B, BText), "a.py", "b.txt");
      TrailerSpelled(DefaultHeader + "\n" + blockA + "\n" + blockB);
    } else {
      TwoFilesPrompt(Tree(), minify, Root, "*", MergeExclude(None), Instruction, order,
                     (B, BText), (A, minify(ASource).value), "b.txt", "a.py");
      TrailerSpelled(DefaultHeader + "\n" + blockB + "\n" + blockA);
    }
  }

  /**
    With the file-system root as the directory: the anchor "/" is a component
    of its own, so `/a.py` lies below it with the label "a.py", and a file
    named ".py" there has no suffix and is not minified.
   */
  lemma AnchorOnlyRoot()
    ensures StrictlyUnder(Path(["/", "a.py"]), Path(["/"]))
    ensures RelName(Path(["/"]), Path(["/", "a.py"])) == Some("a.py")
    ensures IsPythonSource(Path(["/", "a.py"]))
    ensures !IsPythonSource(Path(["/", ".py"]))
  {
    assert Path(["/", "a.py"]).parts[..1] == ["/"];
    assert Path(["/", "a.py"]).parts[1..] == ["a.py"];
    PythonSourceByName(Path(["/", "a.py"]));
    PythonSourceByName(Path(["/", ".py"]));
    assert Name(Path(["/", "a.py"])) == "a.py" && Name(Path(["/", ".py"])) == ".py";
  }
}
