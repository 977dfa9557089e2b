/**
  Prompt assembly (main.py `create_file_str`, `create_final_prompt`): one
  labelled, fenced block per file, joined by newlines between a header and the
  user's instruction followed by a footer.
 */
module Assembly {
  import opened Wrappers
  import opened Strings
  import opened Paths
  import opened Host
  import opened Transform

  const DefaultHeader: string := "Here is the context of my current project."
  const DefaultFooter: string := "Use best practices and clean code techniques. Try your best!"

  /** The text before a block's label. */
  const Label: string := "File `"

  /** The text between a block's label and its content. */
  const Fence: string := "`:\n```python\n"

  /** The text that closes a block. */
  const Close: string := "\n```"

  /** `create_file_str(file_name, file_content)`: a label line, then the content fenced as Python. */
  function CreateFileStr(name: string, content: string): (b: string)
    ensures |b| == |name| + |content| + 23
  {
    Label + name + Fence + content + Close
  }

  /**
    Reads a block back: the label runs from "File `" to the first backtick,
    the content from the fence to the closing fence.
   */
  function ParseFileStr(b: string): Option<(string, string)>
  {
    if |b| < |Label| || b[..|Label|] != Label then None
    else
      var rest := b[|Label|..];
      var k := IndexOf(rest, '`');
      var tail := rest[k..];
      if |tail| < |Fence| + |Close| || tail[..|Fence|] != Fence
         || tail[|tail| - |Close|..] != Close
      then None
      else Some((rest[..k], tail[|Fence|..|tail| - |Close|]))
  }

  /** A block gives its name and content back, as long as the name holds no backtick. */
  lemma ParseCreateFileStr(name: string, content: string)
    requires '`' !in name
    ensures ParseFileStr(CreateFileStr(name, content)) == Some((name, content))
  {
    var b := CreateFileStr(name, content);
    var rest := b[|Label|..];
    var tail := Fence + content + Close;
    assert b[..|Label|] == Label;
    assert rest == name + tail;
    IndexOfAt(name, tail, '`');
    assert rest[..|name|] == name;
    assert rest[|name|..] == tail;
    assert tail[..|Fence|] == Fence;
    assert tail[|tail| - |Close|..] == Close;
    assert tail[|Fence|..|tail| - |Close|] == content;
  }

  /**
    Labels are not escaped: a name that holds the fence text makes two
    different files render to the same block.
   */
  lemma BacktickNamesAmbiguous(a: string, b: string, c: string)
    ensures a + Fence + b != a
    ensures CreateFileStr(a + Fence + b, c) == CreateFileStr(a, b + Fence + c)
  {
    assert |a + Fence + b| > |a|;
  }

  /** One element of the list comprehension in `create_final_prompt`. */
  function RenderBlock(root: Path, entry: Entry): (r: Result<string, Error>)
    ensures r.Success? <==> RelName(root, entry.0).Some?
    ensures r.Success? ==> r.value == CreateFileStr(RelName(root, entry.0).value, entry.1)
    ensures r.Failure? ==> r.error == NotRelative(entry.0, root)
  {
    match RelName(root, entry.0)
    case None => Failure(NotRelative(entry.0, root))
    case Some(name) => Success(CreateFileStr(name, entry.1))
  }

  /** The list comprehension in `create_final_prompt`, in dictionary order. */
  function RenderBlocks(files: seq<Entry>, root: Path): (r: Result<seq<string>, Error>)
    ensures r.Success? <==> forall i :: 0 <= i < |files| ==> RelName(root, files[i].0).Some?
    ensures r.Success? ==> |r.value| == |files| && forall i :: 0 <= i < |files| ==>
      r.value[i] == CreateFileStr(RelName(root, files[i].0).value, files[i].1)
    ensures r.Failure? ==>
      exists i :: 0 <= i < |files| && r.error == NotRelative(files[i].0, root)
                  && RelName(root, files[i].0).None?
                  && forall j :: 0 <= j < i ==> RelName(root, files[j].0).Some?
  {
    Collect(files, e => RenderBlock(root, e))
  }

  /** The text after the file blocks. */
  function Trailer(prompt: string, footer: string): string
  {
    ".\n" + prompt + "\n" + footer
  }

  /** The f-string that closes `create_final_prompt`, around the joined blocks. */
  function Layout(header: string, blocks: seq<string>, prompt: string, footer: string): (r: string)
    ensures |r| == |header| + |Join(blocks, '\n')| + |prompt| + |footer| + 4
  {
    header + "\n" + Join(blocks, '\n') + Trailer(prompt, footer)
  }

  /**
    `create_final_prompt(files, root_directory, prompt, prompt_header,
    prompt_footer)`, with the dictionary given as its entries in order. It
    fails, as `relative_to` does, on the first file outside the root; otherwise
    the blocks are those of the files, one each, in order.
   */
  function CreateFinalPrompt(files: seq<Entry>, root: Path, prompt: string,
                             header: string, footer: string): (r: Result<string, Error>)
    ensures r.Success? <==> forall i :: 0 <= i < |files| ==> RelName(root, files[i].0).Some?
    ensures r.Failure? ==>
      exists i :: 0 <= i < |files| && r.error == NotRelative(files[i].0, root)
                  && RelName(root, files[i].0).None?
                  && forall j :: 0 <= j < i ==> RelName(root, files[j].0).Some?
    ensures r.Success? ==>
      RenderBlocks(files, root).Success?
      && r.value == Layout(header, RenderBlocks(files, root).value, prompt, footer)
  {
    var blocks :- RenderBlocks(files, root);
    Success(Layout(header, blocks, prompt, footer))
  }

  /**
    The prompt opens with the header line and closes with ".", the instruction
    and the footer; with no files it is exactly those.
   */
  lemma PromptFrame(files: seq<Entry>, root: Path, prompt: string,
                    header: string, footer: string)
    requires CreateFinalPrompt(files, root, prompt, header, footer).Success?
    ensures var out := CreateFinalPrompt(files, root, prompt, header, footer).value;
      && |header| + 1 + |Trailer(prompt, footer)| <= |out|
      && out[..|header| + 1] == header + "\n"
      && out[|out| - |Trailer(prompt, footer)|..] == Trailer(prompt, footer)
      && (|files| == 0 ==> out == header + "\n.\n" + prompt + "\n" + footer)
  {
    var blocks := RenderBlocks(files, root).value;
    var out := Layout(header, blocks, prompt, footer);
    assert out[..|header| + 1] == header + "\n";
    assert out[|out| - |Trailer(prompt, footer)|..] == Trailer(prompt, footer);
  }

  /**
    Every file's block stands verbatim in the prompt, after the header line,
    in dictionary order: block `i` starts right after block `i - 1` and the
    newline that follows it.
   */
  lemma BlockInPlace(files: seq<Entry>, root: Path, prompt: string, header: string, footer: string,
                     out: string, blocks: seq<string>, i: nat)
    requires CreateFinalPrompt(files, root, prompt, header, footer) == Success(out)
    requires RenderBlocks(files, root) == Success(blocks)
    requires i < |files|
    ensures blocks[i] == CreateFileStr(RelName(root, files[i].0).value, files[i].1)
    ensures PieceAt(out, |header| + 1 + Offset(blocks, i), blocks[i], '\n', i + 1 < |files|)
  {
    LayoutInPlace(header, blocks, prompt, footer, i, out, blocks[i], i + 1 < |files|);
  }

  lemma LayoutInPlace(header: string, blocks: seq<string>, prompt: string, footer: string, i: nat,
                      out: string, block: string, more: bool)
    requires i < |blocks|
    requires out == Layout(header, blocks, prompt, footer)
    requires block == blocks[i] && more == (i + 1 < |blocks|)
    ensures PieceAt(out, |header| + 1 + Offset(blocks, i), block, '\n', more)
  {
    JoinInContext(header + "\n", blocks, '\n', Trailer(prompt, footer), i, out, |header| + 1 + Offset(blocks, i));
  }

  /** The layout of exactly two blocks. */
  lemma LayoutTwo(header: string, x: string, y: string, prompt: string, footer: string)
    ensures Layout(header, [x, y], prompt, footer) == header + "\n" + x + "\n" + y + Trailer(prompt, footer)
  {
    JoinTwo(x, y, '\n');
  }

  /** The prompt for exactly two files: the header line, the two blocks on their own lines, the trailer. */
  lemma TwoBlocksPrompt(files: seq<Entry>, root: Path, prompt: string, header: string, footer: string,
                        firstName: string, secondName: string)
    requires |files| == 2
    requires RelName(root, files[0].0) == Some(firstName) && RelName(root, files[1].0) == Some(secondName)
    ensures CreateFinalPrompt(files, root, prompt, header, footer)
         == Success(header + "\n" + CreateFileStr(firstName, files[0].1) + "\n"
                    + CreateFileStr(secondName, files[1].1) + Trailer(prompt, footer))
  {
    assert forall i :: 0 <= i < |files| ==> RelName(root, files[i].0).Some?;
    var blocks := RenderBlocks(files, root).value;
    assert blocks == [CreateFileStr(firstName, files[0].1), CreateFileStr(secondName, files[1].1)];
    LayoutTwo(header, blocks[0], blocks[1], prompt, footer);
  }
}
