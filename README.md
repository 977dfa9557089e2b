# contextify, modelled in Dafny

contextify (`main.py`) gathers the files of a project into one prompt for a
language model, minifying the Python ones on the way. It runs as a pipeline:

1. Validate the arguments: the root must be a directory and the instruction
   must be non-empty. The exclude string then gets `.git/**/*` appended.
2. Resolve the comma-separated include and exclude strings into sets of glob
   patterns.
3. Select the regular files that some include pattern reaches and no exclude
   pattern reaches.
4. Read every selected file, minifying it if its suffix is `.py`.
5. Render each file as a labelled, fenced block. Join the blocks with
   newlines between a fixed header and the user's instruction, which is
   followed by a fixed footer.

The model keeps every stage in Dafny, one module per stage:

- `Strings`: `str.split` and `str.join`.
- `Paths`: `pathlib`'s `suffix`, `relative_to` and `as_posix`.
- `Patterns`: `get_patterns`, `get_gitignore_patterns` and the exclude rewrite.
- `Discovery`: `get_file_paths`.
- `Transform`: `minify_file`, `minify_files`.
- `Assembly`: `create_file_str`, `create_final_prompt`.
- `Validation`: `validate_directory`, and `validate_arguments` as a method on an `Args` class whose `exclude` field it rewrites in place.
- `Pipeline`: the data flow of `main`.
- `Sample`: a concrete run over a two-file tree.

The Python exceptions become `Failure`/`Fail` values carrying a `Host.Error`.

The outside world is given to the model as values:

- The file system is a `Host.FileSystem`, made of four arbitrary functions:
  - `isDir`;
  - `isFile`;
  - `rglob`;
  - `readText`, which returns `None` where reading raises.
- The minifier is a `Host.Minifier`: any `string -> Option<string>`, with
  `None` where `python_minifier` raises.
- A Python set or dict has no iteration order the model can reproduce. The
  pipeline takes it as a parameter `order: seq<Path>` and requires it to list
  the selected set once (`Pipeline.Enumerates`). The stages below it take any
  sequence. Every property holds for every such order.

`validate_arguments` rejects only the empty instruction: it tests
`not args.prompt` (main.py:19), so an instruction of spaces alone is accepted
and ends up in the prompt.

## Model

| member | source | states |
|---|---|---|
| Wrappers.Collect | main.py:71 | Mapping a fallible step over a sequence succeeds iff every element succeeds. The results are then those of the elements, in order. Otherwise the error is that of the first failing element, and every element before it succeeded. |
| Strings.Split | main.py:34 | `s.split(sep)` yields at least one piece, and no piece holds the separator. Its partners `SplitSegments`, `JoinSplit` and `SplitJoin` say which pieces. |
| Strings.Join | main.py:85 | `sep.join(parts)` of no pieces is empty. Otherwise it is as long as the pieces plus one separator between each two. |
| Strings.IndexOf | main.py:34 | The position of the first separator, or the length when there is none; no earlier character is the separator. |
| Strings.SplitNoSeparator | main.py:34 | A string without the separator splits into itself alone. |
| Strings.SplitSegments | main.py:34 | A string is a piece of `s.split(sep)` iff it is a segment of `s`: a maximal separator-free run bounded by separators or the ends, empty runs included. |
| Strings.JoinSplit | main.py:34 | Joining the pieces of a split with the same separator gives the string back. |
| Strings.SplitJoin | main.py:34 | Splitting a join of one or more separator-free pieces gives exactly those pieces back. |
| Strings.JoinInjective | main.py:88 | Two non-empty sequences of separator-free pieces with the same join are equal. |
| Strings.JoinAppend | main.py:85 | Joining two non-empty runs of pieces puts exactly one separator between their joins. |
| Strings.SplitAppend | main.py:34 | Splitting `s + sep + t` gives the pieces of `s` followed by those of `t`. |
| Strings.JoinSlice | main.py:85 | Piece `i` of a join stands verbatim at its offset, after every earlier piece and its separator. A separator follows it unless it is the last piece. |
| Strings.JoinInContext | main.py:85-93 | Text put before and after a join keeps every piece in place, shifted by the length of the text before. |
| Strings.JoinTwo | main.py:85 | Two pieces are joined by exactly one separator. |
| Paths.LastIndexOf | main.py:58 | `str.rfind`: the position of the last occurrence, or -1; no later character matches. |
| Paths.Name | main.py:58 | `PurePath.name`: the last component, the path being the components before it followed by the name; "" for the empty path. |
| Paths.IsPythonSource | main.py:58 | The test on `suffix` that selects a file for minification; a selected name is longer than three characters and ends in `.py`. |
| Paths.Suffix | main.py:58 | `PurePath.suffix` is empty or a proper ending of the name. A non-empty suffix begins with its only dot and has at least one character after it. |
| Paths.PythonSourceByName | main.py:58 | A file is minified iff its name is longer than three characters and ends in `.py`. So a file named `.py` alone passes through unminified. |
| Paths.RelativeTo | main.py:88 | `relative_to` succeeds iff the root's components prefix the path's. On success the root's components followed by the result's are the path's. |
| Paths.AsPosix | main.py:88 | The empty relative path is ".". Otherwise, for components without separators, the string splits on "/" back into those components. |
| Paths.RelName | main.py:88 | A label exists iff the root's components prefix the path's. For a path strictly below the root whose lower components hold no separator, the label splits on "/" into exactly those components. |
| Paths.RelNameUnder | main.py:88 | Every path strictly below the root has a label. |
| Paths.RelNameInjective | main.py:88 | Two paths strictly below the same root, with no separator in their components below it, are the same path if their labels are equal. |
| Patterns.GetPatterns | main.py:33-34 | An empty string gives the default alone. Otherwise the result is exactly the set of comma-separated segments: untrimmed, empty segments kept, duplicates collapsed, none holding a comma. |
| Patterns.GetGitignorePatterns | main.py:28-30 | The ignore-file seam is a placeholder: it gives the empty set whatever the directory. |
| Patterns.GitignoreAddsNothing | main.py:28-30 | Adding the ignore-file patterns to an exclude set leaves it unchanged. |
| Patterns.ResolveGitExclude | main.py:25 | The string `.git/**/*` resolves to the set holding that pattern alone. |
| Patterns.ResolveAppended | main.py:23 | Appending `,.git/**/*` to a non-empty string adds exactly the `.git` pattern to its resolved set. |
| Patterns.Given | main.py:22 | The truthiness of `args.exclude`: true iff it is neither `None` nor the empty string. |
| Patterns.MergeExclude | main.py:22-25 | The rewritten exclude string is never empty. A given string is a proper prefix of it. It always resolves to a set holding `.git/**/*`: the user's patterns plus that one, or that one alone when no exclude was given. |
| Discovery.MatchedFiles | main.py:40-51 | A path is in the comprehension iff it is a regular file that some pattern's `rglob` reaches. |
| Discovery.GetFilePaths | main.py:37-52 | A path is selected iff some include pattern reaches it as a regular file and no exclude pattern does. The result lies within the included files, is disjoint from the excluded ones, and holds only regular files. |
| Discovery.MatchedFilesUnion | main.py:40-51 | Matching a union of pattern sets gives the union of the matches. |
| Discovery.ExcludeAntitone | main.py:37-52 | Excluding more patterns never selects more files. |
| Discovery.IncludeMonotone | main.py:37-52 | Including more patterns never selects fewer files. |
| Discovery.AddExcludePattern | main.py:37-52 | Adding one exclude pattern removes exactly the regular files that pattern reaches. |
| Discovery.SingleWalkEquivalent | main.py:37-52 | The selection equals the included files that no exclude pattern's `rglob` reaches. |
| Transform.MinifyFile | main.py:55-67 | The result carries the input path. It succeeds iff the file can be read and, for a `.py` suffix, the minifier accepts the text. A non-Python file keeps its raw text and a Python file gets the minified text. A failure says whether reading or minifying failed. |
| Transform.MinifyFiles | main.py:70-71 | It succeeds iff every file transforms. The keys are then the input paths in order, and each value is that file's transformed content. Otherwise the error is that of the first file that failed, and all earlier files transformed. |
| Transform.MinifyFilesEntries | main.py:70-71 | For distinct input paths the keys are distinct, the key set equals the input set, and a non-Python file's entry is its raw text. |
| Transform.MinifyTwo | main.py:70-71 | Two files that both transform give their two entries, in order. |
| Assembly.CreateFileStr | main.py:74-75 | A block is 23 characters longer than its name and content together. |
| Assembly.ParseCreateFileStr | main.py:74-75 | A block can be read back into the name and the content it was made from, provided the name holds no backtick. |
| Assembly.BacktickNamesAmbiguous | main.py:75 | Labels are not escaped. A name holding the fence text yields the same block as a shorter name with different content. So two different files can render alike. |
| Assembly.RenderBlock | main.py:87-90 | A file renders iff it lies under the root. Its block is then `create_file_str` of its relative label and its content. Otherwise the error names the file and the root. |
| Assembly.RenderBlocks | main.py:85-92 | The comprehension succeeds iff every file lies under the root, giving one `create_file_str` block per file, in order. Otherwise it fails on the first file outside the root: the error names a file that has no label, and every earlier file has one. |
| Assembly.CreateFinalPrompt | main.py:78-93 | It succeeds iff every file lies under the root. Otherwise the error names the first file outside it, which has no label while every earlier file has one. On success the prompt is the header, a newline, the newline-joined blocks, ".", a newline, the instruction, a newline, and the footer. |
| Assembly.Layout | main.py:93 | The f-string adds four characters to the header, the joined blocks, the instruction and the footer: the newline after the header, the ".", and the newlines on either side of the instruction. `PromptFrame` and `LayoutInPlace` say where each part stands. |
| Assembly.PromptFrame | main.py:93 | The prompt begins with the header and a newline and ends with ".", the instruction and the footer on their lines. With no files it is exactly `header + "\n.\n" + prompt + "\n" + footer`. |
| Assembly.LayoutInPlace | main.py:85-93 | Block `i` stands verbatim in the prompt, one character past the header plus the offset of the block in the join. A newline follows it unless it is the last block. |
| Assembly.BlockInPlace | main.py:85-93 | For every file, its block is `create_file_str` of its label and content, and that block stands verbatim in the prompt at its place. |
| Assembly.LayoutTwo | main.py:85-93 | With two blocks, the prompt is the header, the first block, the second block, each on its own line, then the trailer. |
| Assembly.TwoBlocksPrompt | main.py:78-93 | Two files under the root give the header, their two blocks in order, and the trailer. |
| Validation.Args.constructor | main.py:113 | The parsed arguments hold the directory, include string, exclude string and instruction given. |
| Validation.ValidateDirectory | main.py:11-13 | It passes iff the path is a directory, and otherwise fails with a not-a-directory error naming it. |
| Validation.ValidateArguments | main.py:16-25 | The directory is checked first. A non-directory fails whatever the instruction is. A directory with an empty instruction fails next. Neither failure touches `exclude`. A passing run rewrites `exclude` to the merged string, which resolves to a set holding `.git/**/*`. |
| Pipeline.Selection | main.py:117-123 | A file is selected iff an include pattern reaches it as a regular file and no pattern of the exclude string does; the ignore-file patterns add nothing. |
| Pipeline.DistinctCard | main.py:121-124 | A sequence without repetitions has as many elements as its set; so an iteration of the selection has one place per selected file. |
| Pipeline.BuildPrompt | main.py:117-125 | With `order` listing the selection once, the prompt is built iff every selected file transforms and renders. It then opens with the header line and closes with ".", the instruction and the footer. On a well-formed file system a failure is always an unreadable file or a file the minifier rejects. |
| Pipeline.UnderRoot | main.py:40-45 | On a well-formed file system every selected file lies strictly below the root, its components below the root hold no separator, and it has a label. |
| Pipeline.GitFilesNeverSelected | main.py:115-123 | After the exclude rewrite, no regular file that the `.git` pattern reaches is ever selected. |
| Pipeline.EveryFileRendered | main.py:117-125 | In a successful run, each file of the iteration transforms and has a label. Its block is `create_file_str` of that label and its transformed content. The block stands verbatim in the prompt at its place, in iteration order. |
| Pipeline.OneBlockPerFile | main.py:117-125 | A successful run renders exactly as many blocks as there are selected files. |
| Pipeline.SelectedFileRendered | main.py:117-125 | In a successful run every selected file stands at exactly one place of the iteration. There its block, `create_file_str` of its label and its transformed content, stands verbatim in the prompt. |
| Pipeline.LabelsDistinct | main.py:85-92 | On a well-formed file system, the labels of two different selected files differ. |
| Pipeline.NothingSelected | main.py:117-125 | With nothing selected the empty iteration is the only one, and the prompt is exactly the header, ".", the instruction and the footer, one per line. |
| Pipeline.TwoFilesPrompt | main.py:117-125 | With two selected files, both transforming and both under the root, the prompt is the header, the blocks of the two files in that order, and the trailer. |
| Sample.TreeWellFormed | main.py:43-44 | The sample tree meets the one file-system assumption, although its `rglob("**")` yields the root directory too. |
| Sample.AnchorOnlyRoot | main.py:88 | With `/` as the directory, `/a.py` lies strictly below it with the label `a.py`, which is minified, while a file named `.py` there has no suffix and is not. |
| Sample.Selected | main.py:117-123 | In the sample tree, include `*` with no exclude resolves the excludes to the `.git` pattern and selects both files. |
| Sample.Orders | main.py:121-124 | Both iteration orders of the sample's two files enumerate the selection. |
| Sample.Transformed | main.py:55-67 | In the sample tree the Python file is minified and the text file passes through unchanged. |
| Sample.Run | main.py:115-125 | The sample run's prompt, for either iteration order, spelled out character for character up to the minifier's output. |

## Left out

- `main`'s command-line parsing, the `Path.cwd()` default and the listing of processed files (main.py:96-131) are I/O. `Pipeline.BuildPrompt` takes their results as parameters.
- `pyperclip.copy` (main.py:126) is a clipboard sink outside the program.
- The token count through `tiktoken` (main.py:133-134) is an external encoder. It only feeds a printed number.
- The internals of `python_minifier.minify` (main.py:61-66) are a foreign library. The minifier is an arbitrary function; the model claims nothing about its output.
- `rglob`'s glob semantics and the real `is_dir`, `is_file` and `read_text` are file-system behaviour. They are arbitrary functions of a `FileSystem`. The only assumption, `WellFormed`, is that every regular file `rglob` yields lies strictly below its root, with no separator in its components below the root. It says nothing of the directories `rglob` yields, such as the root itself for "**". Only the members that name it rely on it.
- An exception raised by `rglob` itself is not modelled, and discovery always succeeds. A pattern passed through from `--include` or `--exclude` can raise. An absolute pattern such as `/tmp/*` raises `NotImplementedError`. Up to Python 3.12, a pattern such as `a**` raises `ValueError`. An unreadable directory does not raise: `rglob` skips it.
- An exception raised by `is_dir` (main.py:11) or `is_file` (main.py:44) is not modelled. Up to Python 3.13 they raise `PermissionError` when `stat` fails with `EACCES`. `isDir` and `isFile` are total, so they cannot raise.
- The UTF-8 decoding of `read_text` is not modelled. Text is `seq<char>`, and a decoding failure is one of the reasons `readText` returns `None`.
- A path is the sequence of its components, as `PurePath.parts` gives them: an absolute path begins with the anchor "/" as a component of its own, so a root that is only the anchor, as with `--directory /`, works as any other (`Sample.AnchorOnlyRoot`). `pathlib`'s own parsing (collapsing repeated separators, Windows drives) is not modelled. `..` and symlinks need no model: `PurePath` keeps `..` as a component and the source never resolves a path, so the model treats both lexically as the source does.
- Python's set and dict iteration order is not modelled. It is the `order` parameter, and the properties hold for every order.
- `Paths.RelativeTo` is a lexical prefix test on components. So `RelativeTo(Path(["/", "x"]), Path([]))` succeeds where `PurePath("/x").relative_to(".")` raises. That case does not arise at main.py:88, where the root is the directory `rglob` searched.
- Transform.MinifyFiles: models the entries of the dictionary, not the collapsing of repeated keys. The input comes from a set, so its paths are already distinct (`Transform.MinifyFilesEntries`).
- The `python` tag on every fence, also for non-Python files, is kept as the source writes it.
