/**
  What the pipeline gets from outside: the file system (`Path.is_dir`,
  `Path.is_file`, `Path.rglob`, `Path.read_text`) and the minifier, each an
  arbitrary function the model is given, and the errors that end a run.
 */
module Host {
  import opened Wrappers
  import opened Paths

  type Pattern = string

  /**
    A snapshot of the file system. `rglob(root, pattern)` is what
    `root.rglob(pattern)` yields; `readText(p)` is `None` where
    `p.read_text(encoding="utf-8")` raises.
   */
  datatype FileSystem = FileSystem(
    isDir: Path -> bool,
    isFile: Path -> bool,
    rglob: (Path, Pattern) -> set<Path>,
    readText: Path -> Option<string>)

  /** `python_minifier.minify` with the source's options; `None` where it raises. */
  type Minifier = string -> Option<string>

  /**
    What every real file system does: a regular file that `rglob` yields lies
    strictly below the root, and its components below the root hold no
    separator. (`rglob("**")` also yields the root itself, a directory, so the
    assumption speaks only of regular files.)
   */
  ghost predicate WellFormed(fs: FileSystem)
  {
    forall root, pattern, p {:trigger p in fs.rglob(root, pattern)} ::
      p in fs.rglob(root, pattern) && fs.isFile(p) ==> StrictlyUnder(p, root) && ValidBelow(p, root)
  }

  /** The exceptions that end a run. */
  datatype Error =
    | NotADirectory(directory: Path)         // NotADirectoryError
    | EmptyPrompt                            // ValueError("Prompt cannot be empty.")
    | Unreadable(path: Path)                 // read_text fails (missing, permissions, not UTF-8)
    | MinifyFailed(path: Path)               // python_minifier raises
    | NotRelative(path: Path, root: Path)    // relative_to raises ValueError
}
