/**
 * The page's side of a request (`sendMessage` and `applyChanges` in
 * `static/js/main.js`): the chat line shown for the user's prompt, the body
 * posted to `/api/generate`, and the body a code block's Apply button posts to
 * `/api/apply`.
 */
module Compose {
  import opened Wrappers
  import opened Text
  import opened Dict
  import Transcript
  import Server

  /** Written between the prompt and the selected paths in the chat line. */
  const SelectionHeader := "\n\n参考文件：\n"

  /** What one press of Send produces: the chat line the user sees and the request body. */
  datatype Outgoing = Outgoing(shown: string, request: Server.GenerateRequest)

  /**
   * `sendMessage`: a prompt that is blank after trimming sends nothing.
   * Otherwise the trimmed prompt goes out with the whole selection, and the chat
   * line is the trimmed prompt, followed by the header and the selected paths
   * one per line only when some file is selected.
   */
  function SendMessage(input: string, selection: Dict<string>): (out: Option<Outgoing>)
    ensures out.None? <==> Trim(input) == ""
    ensures out.Some? ==> out.value.request == Server.GenerateRequest(Some(Trim(input)), Some(selection))
    ensures out.Some? && selection == [] ==> out.value.shown == Trim(input)
    ensures out.Some? && selection != [] ==>
              StartsWith(out.value.shown, Trim(input) + SelectionHeader)
              && out.value.shown[|Trim(input) + SelectionHeader|..] == Join(Keys(selection), "\n")
  {
    var prompt := Trim(input);
    if prompt == "" then None
    else
      var shown := if |Keys(selection)| > 0 then prompt + SelectionHeader + Join(Keys(selection), "\n") else prompt;
      assert selection != [] ==> shown == (prompt + SelectionHeader) + Join(Keys(selection), "\n");
      Some(Outgoing(shown, Server.GenerateRequest(Some(prompt), Some(selection))))
  }

  /**
   * When no selected path holds a newline, the paths listed in the chat line
   * split back into exactly the selection's keys, in order.
   */
  lemma SelectionListed(input: string, selection: Dict<string>)
    requires Trim(input) != "" && selection != []
    requires forall i :: 0 <= i < |selection| ==> Lacks(selection[i].0, '\n')
    ensures var shown := SendMessage(input, selection).value.shown;
            Split(shown[|Trim(input) + SelectionHeader|..], "\n") == Keys(selection)
  {
    var ks := Keys(selection);
    forall i | 0 <= i < |ks|
      ensures !Contains(ks[i], ['\n'])
    {
      Absent(ks[i], "\n");
    }
    SplitJoinChar(ks, '\n');
  }

  /** Whatever the user types, their own chat line is one prose block, fences included. */
  lemma UserLineIsProse(input: string, selection: Dict<string>)
    requires Trim(input) != ""
    ensures Transcript.MessageBlocks(Transcript.You, SendMessage(input, selection).value.shown)
            == [Transcript.Markdown(SendMessage(input, selection).value.shown)]
  {
  }

  /**
   * Every body the page posts passes the route's check, and the files the model
   * is shown are the selection, entry for entry.
   */
  lemma SentIsAccepted(input: string, selection: Dict<string>)
    requires Trim(input) != ""
    ensures var req := SendMessage(input, selection).value.request;
            !Server.Blank(req.prompt) && req.fileContext.GetOr([]) == selection
            && Server.ModelRequestFor(req.prompt.value, req.fileContext.GetOr([]))
               == Server.ModelRequestFor(Trim(input), selection)
  {
  }

  /** The body the Apply button of a code block posts: the block's path and code. */
  function ApplyRequestOf(block: Transcript.Block): (req: Server.ApplyRequest)
    requires block.Code?
    ensures Server.ApplyTarget(req).None? <==> block.filePath == "" || block.code == ""
    ensures Server.ApplyTarget(req).Some? ==> Server.ApplyTarget(req).value == (block.filePath, block.code)
  {
    Server.ApplyRequest(Some(block.filePath), Some(block.code))
  }

  /**
   * A block written on one line (`pre ```name:text``` post`) has no code, so
   * its Apply button is always refused with 400 and nothing is written.
   */
  lemma OneLineBlockRefused(sender: Transcript.Sender, pre: string, name: string, text: string, post: string,
                            write: (string, string) -> bool)
    requires sender == Transcript.Assistant
    requires Lacks(pre, '`') && Lacks(name, '`') && Lacks(text, '`') && Lacks(post, '`')
    requires Lacks(name, ':') && Lacks(text, ':') && Lacks(name, '\n') && Lacks(text, '\n')
    requires Trim(name + ":" + text) == name + ":" + text
    requires Trim(pre) != "" && Trim(post) != ""
    ensures var blocks := Transcript.MessageBlocks(sender, pre + Fence + name + ":" + text + Fence + post);
            |blocks| == 3 && blocks[1].Code?
            && Server.Apply(ApplyRequestOf(blocks[1]), write) == Server.Response(400, Server.Problem(Server.EmptyApply))
  {
    var content := pre + Fence + name + ":" + text + Fence + post;
    Transcript.OneLineFence(sender, pre, name, text, post);
    EmptyCodeRefused(Transcript.Code(Trim(text), ""), write);
  }

  /** A code block with no code cannot be applied. */
  lemma EmptyCodeRefused(block: Transcript.Block, write: (string, string) -> bool)
    requires block.Code? && block.code == ""
    ensures Server.Apply(ApplyRequestOf(block), write) == Server.Response(400, Server.Problem(Server.EmptyApply))
  {
  }
}
