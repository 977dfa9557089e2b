/**
  The data flow of main.py between validation and delivery: resolve the
  patterns, select the files, transform them and assemble the prompt. The
  order in which Python iterates the selected set is a parameter, `order`,
  that must list the selection once; every property below holds for any such
  order.
 */
module Pipeline {
  import opened Wrappers
  import opened Strings
  import opened Paths
  import opened Host
  import opened Patterns
  import opened Discovery
  import opened Transform
  import opened Assembly

  /**
    The selected set: `get_file_paths` over the resolved include patterns and
    the resolved exclude patterns joined with the ignore-file patterns. The
    latter add nothing, so a file is selected iff an include pattern reaches it
    and no pattern of the exclude string does.
   */
  function Selection(fs: FileSystem, directory: Path, includeStr: string,
                     excludeStr: string): (r: set<Path>)
    ensures forall p :: p in r <==>
      Selected(fs, directory, GetPatterns(includeStr, DefaultPattern), GetPatterns(excludeStr, DefaultPattern), p)
  {
    GitignoreAddsNothing(GetPatterns(excludeStr, DefaultPattern), directory);
    GetFilePaths(fs, directory, GetPatterns(includeStr, DefaultPattern),
                 GetPatterns(excludeStr, DefaultPattern) + GetGitignorePatterns(directory))
  }

  /** `order` lists every element of `s` exactly once. */
  predicate Enumerates(order: seq<Path>, s: set<Path>)
  {
    Distinct(order) && (set p | p in order) == s
  }

  /** A sequence without repetitions has as many elements as the set of them. */
  lemma {:induction false} DistinctCard(s: seq<Path>)
    requires Distinct(s)
    ensures |set p | p in s| == |s|
    decreases |s|
  {
    if |s| > 0 {
      var t := s[1..];
      assert Distinct(t) by {
        forall i, j | 0 <= i < j < |t| ensures t[i] != t[j] {
          assert t[i] == s[i + 1] && t[j] == s[j + 1];
        }
      }
      DistinctCard(t);
      assert s == [s[0]] + t;
      assert (set p | p in s) == (set p | p in t) + {s[0]};
      assert s[0] !in (set p | p in t) by {
        forall k | 0 <= k < |t| ensures t[k] != s[0] {
          assert t[k] == s[k + 1];
        }
      }
    }
  }

  /**
    The prompt main.py copies to the clipboard, for the validated arguments,
    with the selected set iterated in `order`. It is built iff every selected
    file transforms and renders; it then opens with the header line and closes
    with ".", the instruction and the footer. On a real file system it can
    fail only by an unreadable file or a file the minifier rejects.
   */
  function BuildPrompt(fs: FileSystem, minify: Minifier, directory: Path, includeStr: string,
                       excludeStr: string, prompt: string, order: seq<Path>): (r: Result<string, Error>)
    requires Enumerates(order, Selection(fs, directory, includeStr, excludeStr))
    ensures r.Success? <==>
      && MinifyFiles(fs, minify, order).Success?
      && CreateFinalPrompt(MinifyFiles(fs, minify, order).value, directory, prompt,
                           DefaultHeader, DefaultFooter).Success?
    ensures r.Success? ==> Framed(r.value, prompt)
    ensures WellFormed(fs) && r.Failure? ==> r.error.Unreadable? || r.error.MinifyFailed?
  {
    var files :- MinifyFiles(fs, minify, order);
    assert WellFormed(fs) ==> forall i :: 0 <= i < |files| ==> RelName(directory, files[i].0).Some? by {
      if WellFormed(fs) {
        forall i | 0 <= i < |files| ensures RelName(directory, files[i].0).Some? {
          UnderRoot(fs, directory, includeStr, excludeStr, order, i);
          assert files[i].0 == order[i];
        }
      }
    }
    var out := CreateFinalPrompt(files, directory, prompt, DefaultHeader, DefaultFooter);
    assert out.Success? ==> Framed(out.value, prompt) by {
      if out.Success? {
        PromptFrame(files, directory, prompt, DefaultHeader, DefaultFooter);
      }
    }
    out
  }

  /** `s` opens with the header line and closes with ".", the instruction and the footer. */
  ghost predicate Framed(s: string, prompt: string)
  {
    && |DefaultHeader| + 1 + |Trailer(prompt, DefaultFooter)| <= |s|
    && s[..|DefaultHeader| + 1] == DefaultHeader + "\n"
    && s[|s| - |Trailer(prompt, DefaultFooter)|..] == Trailer(prompt, DefaultFooter)
  }

  /** Every selected file was reached by `rglob` from the root, so on a real file system it lies below it. */
  lemma UnderRoot(fs: FileSystem, directory: Path, includeStr: string, excludeStr: string,
                  order: seq<Path>, i: nat)
    requires WellFormed(fs)
    requires Enumerates(order, Selection(fs, directory, includeStr, excludeStr))
    requires i < |order|
    ensures StrictlyUnder(order[i], directory) && ValidBelow(order[i], directory)
    ensures RelName(directory, order[i]).Some?
  {
    var p := order[i];
    assert p in Selection(fs, directory, includeStr, excludeStr);
    var pattern :| pattern in GetPatterns(includeStr, DefaultPattern) && p in fs.rglob(directory, pattern);
    assert fs.isFile(p);
  }

  /**
    No file the `.git` pattern reaches is ever selected once the exclude
    string has been through `validate_arguments`.
   */
  lemma GitFilesNeverSelected(fs: FileSystem, directory: Path, includeStr: string,
                              userExclude: Option<string>, p: Path)
    requires fs.isFile(p) && p in fs.rglob(directory, GitExclude)
    ensures p !in Selection(fs, directory, includeStr, MergeExclude(userExclude))
  {
    var excludes := GetPatterns(MergeExclude(userExclude), DefaultPattern);
    assert MatchedBy(fs, directory, excludes, p);
  }

  /**
    Each file of the iteration appears in the prompt as its block, labelled
    with its path relative to the root and holding its transformed content, in
    iteration order.
   */
  lemma EveryFileRendered(fs: FileSystem, minify: Minifier, directory: Path, includeStr: string,
                          excludeStr: string, prompt: string, order: seq<Path>,
                          out: string, files: seq<Entry>, blocks: seq<string>, i: nat)
    requires Enumerates(order, Selection(fs, directory, includeStr, excludeStr))
    requires BuildPrompt(fs, minify, directory, includeStr, excludeStr, prompt, order) == Success(out)
    requires MinifyFiles(fs, minify, order) == Success(files)
    requires RenderBlocks(files, directory) == Success(blocks)
    requires i < |order|
    ensures MinifyFile(fs, minify, order[i]).Success? && RelName(directory, order[i]).Some?
    ensures blocks[i] == CreateFileStr(RelName(directory, order[i]).value, MinifyFile(fs, minify, order[i]).value.1)
    ensures PieceAt(out, |DefaultHeader| + 1 + Offset(blocks, i), blocks[i], '\n', i + 1 < |order|)
  {
    AssembledFromEntries(fs, minify, directory, includeStr, excludeStr, prompt, order);
    assert files[i] == MinifyFile(fs, minify, order[i]).value;
    BlockInPlace(files, directory, prompt, DefaultHeader, DefaultFooter, out, blocks, i);
  }

  /** A successful run renders one block per selected file. */
  lemma OneBlockPerFile(fs: FileSystem, minify: Minifier, directory: Path, includeStr: string,
                        excludeStr: string, prompt: string, order: seq<Path>,
                        out: string, files: seq<Entry>, blocks: seq<string>)
    requires Enumerates(order, Selection(fs, directory, includeStr, excludeStr))
    requires BuildPrompt(fs, minify, directory, includeStr, excludeStr, prompt, order) == Success(out)
    requires MinifyFiles(fs, minify, order) == Success(files)
    requires RenderBlocks(files, directory) == Success(blocks)
    ensures |blocks| == |Selection(fs, directory, includeStr, excludeStr)|
  {
    DistinctCard(order);
    assert |files| == |Keys(files)| == |order|;
  }

  /**
    Every selected file stands in exactly one place of the iteration, and its
    block, labelled with its relative path and holding its transformed
    content, stands verbatim in the prompt there.
   */
  lemma SelectedFileRendered(fs: FileSystem, minify: Minifier, directory: Path, includeStr: string,
                             excludeStr: string, prompt: string, order: seq<Path>,
                             out: string, files: seq<Entry>, blocks: seq<string>, p: Path)
    requires Enumerates(order, Selection(fs, directory, includeStr, excludeStr))
    requires BuildPrompt(fs, minify, directory, includeStr, excludeStr, prompt, order) == Success(out)
    requires MinifyFiles(fs, minify, order) == Success(files)
    requires RenderBlocks(files, directory) == Success(blocks)
    requires p in Selection(fs, directory, includeStr, excludeStr)
    ensures exists i :: 0 <= i < |order| && order[i] == p && Rendered(fs, minify, directory, out, blocks, order, i)
    ensures forall i, j :: 0 <= i < |order| && 0 <= j < |order| && order[i] == p && order[j] == p ==> i == j
  {
    assert p in set q | q in order;
    var i :| 0 <= i < |order| && order[i] == p;
    EveryFileRendered(fs, minify, directory, includeStr, excludeStr, prompt, order, out, files, blocks, i);
    assert Rendered(fs, minify, directory, out, blocks, order, i);
  }

  /** Place `i` of the iteration: its file's block, under its label, stands at its offset in the prompt. */
  ghost predicate Rendered(fs: FileSystem, minify: Minifier, directory: Path, out: string,
                           blocks: seq<string>, order: seq<Path>, i: nat)
  {
    && i < |order| && i < |blocks|
    && MinifyFile(fs, minify, order[i]).Success? && RelName(directory, order[i]).Some?
    && blocks[i] == CreateFileStr(RelName(directory, order[i]).value, MinifyFile(fs, minify, order[i]).value.1)
    && PieceAt(out, |DefaultHeader| + 1 + Offset(blocks, i), blocks[i], '\n', i + 1 < |order|)
  }

  lemma AssembledFromEntries(fs: FileSystem, minify: Minifier, directory: Path, includeStr: string,
                             excludeStr: string, prompt: string, order: seq<Path>)
    requires Enumerates(order, Selection(fs, directory, includeStr, excludeStr))
    requires BuildPrompt(fs, minify, directory, includeStr, excludeStr, prompt, order).Success?
    ensures MinifyFiles(fs, minify, order).Success?
    ensures BuildPrompt(fs, minify, directory, includeStr, excludeStr, prompt, order)
         == CreateFinalPrompt(MinifyFiles(fs, minify, order).value, directory, prompt,
                              DefaultHeader, DefaultFooter)
  {
  }

  /** On a real file system the labels of the blocks name distinct files. */
  lemma LabelsDistinct(fs: FileSystem, directory: Path, includeStr: string, excludeStr: string,
                       order: seq<Path>, i: nat, j: nat)
    requires WellFormed(fs)
    requires Enumerates(order, Selection(fs, directory, includeStr, excludeStr))
    requires i < j < |order|
    ensures RelName(directory, order[i]) != RelName(directory, order[j])
  {
    UnderRoot(fs, directory, includeStr, excludeStr, order, i);
    UnderRoot(fs, directory, includeStr, excludeStr, order, j);
    RelNameInjective(directory, order[i], order[j]);
  }

  /** When nothing is selected the prompt is the header, ".", the instruction and the footer. */
  lemma NothingSelected(fs: FileSystem, minify: Minifier, directory: Path, includeStr: string,
                        excludeStr: string, prompt: string)
    requires Selection(fs, directory, includeStr, excludeStr) == {}
    ensures Enumerates([], Selection(fs, directory, includeStr, excludeStr))
    ensures forall order :: Enumerates(order, Selection(fs, directory, includeStr, excludeStr)) ==> order == []
    ensures BuildPrompt(fs, minify, directory, includeStr, excludeStr, prompt, [])
         == Success(DefaultHeader + "\n.\n" + prompt + "\n" + DefaultFooter)
  {
    assert Enumerates([], Selection(fs, directory, includeStr, excludeStr));
    forall order | Enumerates(order, Selection(fs, directory, includeStr, excludeStr))
      ensures order == []
    {
      DistinctCard(order);
    }
    PromptFrame([], directory, prompt, DefaultHeader, DefaultFooter);
  }

  /** With two files selected the prompt holds their two blocks, in iteration order. */
  lemma TwoFilesPrompt(fs: FileSystem, minify: Minifier, directory: Path, includeStr: string,
                       excludeStr: string, prompt: string, order: seq<Path>,
                       first: Entry, second: Entry, firstName: string, secondName: string)
    requires Enumerates(order, Selection(fs, directory, includeStr, excludeStr))
    requires |order| == 2
    requires MinifyFile(fs, minify, order[0]) == Success(first) && RelName(directory, order[0]) == Some(firstName)
    requires MinifyFile(fs, minify, order[1]) == Success(second) && RelName(directory, order[1]) == Some(secondName)
    ensures BuildPrompt(fs, minify, directory, includeStr, excludeStr, prompt, order)
         == Success(DefaultHeader + "\n" + CreateFileStr(firstName, first.1)
                    + "\n" + CreateFileStr(secondName, second.1) + Trailer(prompt, DefaultFooter))
  {
    MinifyTwo(fs, minify, order, first, second);
    AssembledFromEntries(fs, minify, directory, includeStr, excludeStr, prompt, order);
    TwoBlocksPrompt([first, second], directory, prompt, DefaultHeader, DefaultFooter, firstName, secondName);
  }
}
