/**
  Argument validation (main.py `validate_directory`, `validate_arguments`):
  the directory is checked first, then the prompt, and only a run that passes
  both has its exclude string rewritten in place.
 */
module Validation {
  import opened Wrappers
  import opened Paths
  import opened Host
  import opened Patterns

  /**
    The parsed command line, `argparse.Namespace`; `includes` is the source's
    `args.include`, whose name is a keyword here.
   */
  class Args {
    var directory: Path
    var includes: string
    var exclude: Option<string>
    var prompt: string

    constructor (directory: Path, includes: string, exclude: Option<string>, prompt: string)
      ensures this.directory == directory && this.includes == includes
      ensures this.exclude == exclude && this.prompt == prompt
    {
      this.directory := directory;
      this.includes := includes;
      this.exclude := exclude;
      this.prompt := prompt;
    }
  }

  /** `validate_directory(directory)`: fails unless the path is a directory. */
  function ValidateDirectory(fs: FileSystem, directory: Path): (r: Outcome<Error>)
    ensures r.Pass? <==> fs.isDir(directory)
    ensures r.Fail? ==> r.error == NotADirectory(directory)
  {
    if !fs.isDir(directory) then Fail(NotADirectory(directory)) else Pass
  }

  /**
    `validate_arguments(args)`. A non-directory fails whatever the prompt is;
    an empty prompt fails next; neither failure touches `exclude`. A passing
    run leaves an exclude string that always resolves to a set holding the
    `.git` pattern.
   */
  method ValidateArguments(args: Args, fs: FileSystem) returns (r: Outcome<Error>)
    modifies args`exclude
    ensures !fs.isDir(args.directory) ==>
      r == Fail(NotADirectory(args.directory)) && args.exclude == old(args.exclude)
    ensures fs.isDir(args.directory) && args.prompt == "" ==>
      r == Fail(EmptyPrompt) && args.exclude == old(args.exclude)
    ensures fs.isDir(args.directory) && args.prompt != "" ==>
      r == Pass && args.exclude == Some(MergeExclude(old(args.exclude)))
    ensures r.Pass? ==> args.exclude.Some? && GitExclude in GetPatterns(args.exclude.value, DefaultPattern)
  {
    r := ValidateDirectory(fs, args.directory);
    if r.Fail? {
      return;
    }
    if args.prompt == "" {
      return Fail(EmptyPrompt);
    }
    args.exclude := Some(MergeExclude(args.exclude));
  }
}
