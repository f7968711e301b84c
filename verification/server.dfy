/**
 * The Flask side (`mock_cursor_web.py`): how `CodeGenerator.generate_code`
 * writes the selected files and the user's request into one prompt for the
 * local model, and how the `/api/generate` and `/api/apply` routes validate a
 * request and map the outcome to a status and a JSON body. The model server
 * and the filesystem are parameters.
 */
module Server {
  import opened Wrappers
  import opened Text
  import opened Dict

  /** The fixed instructions in front of every prompt, continuation lines indented as in the source. */
  const SystemPrompt :=
    "你是一个专业的程序员助手。请根据用户的要求生成或修改代码。\n"
    + "        如果用户没有明确自己的需求，请你结合自己的经验，给出最优的解决方案。\n"
    + "        如果要修改现有文件，请明确指出修改的位置和内容。\n"
    + "        如果是新建文件，请提供完整的文件内容。\n"
    + "        在回复中，请使用 ```language:filepath 的格式来标识代码块，以便系统知道要修改哪个文件。"

  const ContextHeader := "参考文件内容：\n"
  const ModelName := "deepseek-coder-v2"
  const RequestLabel := "\n用户请求："
  const GenerateFailure := "生成代码时发生错误："
  const EmptyPrompt := "提示不能为空"
  const EmptyApply := "文件路径和代码不能为空"

  /** One file of the context: its path, then a fence headed `ext:path` around its content. */
  function Entry(path: string, content: string): string {
    "\n文件 " + path + ":\n" + Fence + LastSegment(path, ".") + ":" + path + "\n" + content + "\n" + Fence + "\n"
  }

  /** The entries of the files, in the dictionary's iteration order. */
  function Entries(files: seq<(string, string)>): string
    decreases |files|
  {
    if files == [] then "" else Entry(files[0].0, files[0].1) + Entries(files[1..])
  }

  lemma {:induction false} EntriesAppend(a: seq<(string, string)>, b: seq<(string, string)>)
    ensures Entries(a + b) == Entries(a) + Entries(b)
    decreases |a|
  {
    if a == [] {
      assert a + b == b;
    } else {
      assert (a + b)[1..] == a[1..] + b;
      EntriesAppend(a[1..], b);
    }
  }

  /** The context block: empty for no files, otherwise the header and one entry per file. */
  function BuildContext(files: Dict<string>): (context: string)
    ensures files == [] <==> context == ""
    ensures files != [] ==> StartsWith(context, ContextHeader)
  {
    if files == [] then "" else ContextHeader + Entries(files)
  }

  /**
   * Adding a file to a non-empty context appends exactly its entry: the
   * context lists the files in insertion order.
   */
  lemma ContextExtends(files: Dict<string>, path: string, content: string)
    requires files != [] && path !in Keys(files)
    ensures BuildContext(Set(files, path, content)) == BuildContext(files) + Entry(path, content)
  {
    var added := [(path, content)];
    var e := Entry(path, content);
    var entries := Entries(files);
    EntriesAppend(files, added);
    assert Entries(added) == e;
    assert Set(files, path, content) == files + added;
    Prepend(ContextHeader, entries, e);
  }

  lemma Prepend(h: string, a: string, b: string)
    ensures h + (a + b) == (h + a) + b
  {
  }

  /**
   * The prompt sent to the model: the instructions (`SystemPrompt` in every
   * request), a blank line, the context, then the labelled request.
   */
  function ModelPrompt(instructions: string, prompt: string, context: string): (text: string)
    ensures StartsWith(text, instructions + "\n\n")
    ensures |text| == |instructions| + 2 + |context| + |RequestLabel + prompt|
    ensures text[|instructions| + 2..|instructions| + 2 + |context|] == context
    ensures text[|text| - |RequestLabel + prompt|..] == RequestLabel + prompt
  {
    var lead := instructions + "\n\n";
    var tail := RequestLabel + prompt;
    var text := lead + context + tail;
    assert text == lead + (context + tail);
    assert text[|lead|..|lead| + |context|] == context;
    text
  }

  /** The JSON the generator posts to the model server. */
  datatype ModelRequest = ModelRequest(model: string, prompt: string, stream: bool)

  /** What the model server call gives back: its `response` field, or the text of the exception raised. */
  datatype Outcome = Answered(response: string) | Failed(reason: string)

  /**
   * The request `generate_code` posts: the fixed model, no streaming, and the
   * prompt built around the context of `files`.
   */
  function ModelRequestFor(prompt: string, files: Dict<string>): (req: ModelRequest)
    ensures req.model == ModelName && !req.stream
    ensures req.prompt == ModelPrompt(SystemPrompt, prompt, BuildContext(files))
    ensures files == [] ==> req.prompt == SystemPrompt + "\n\n\n用户请求：" + prompt
  {
    BareRequest(SystemPrompt, prompt);
    ModelRequest(ModelName, ModelPrompt(SystemPrompt, prompt, BuildContext(files)), false)
  }

  /** With no context the prompt is the instructions, the blank line and the labelled request. */
  lemma BareRequest(instructions: string, prompt: string)
    ensures ModelPrompt(instructions, prompt, "") == instructions + "\n\n\n用户请求：" + prompt
  {
    assert "\n\n" + RequestLabel == "\n\n\n用户请求：";
    assert ModelPrompt(instructions, prompt, "") == instructions + "\n\n" + "" + RequestLabel + prompt;
  }

  /**
   * Every selected file reaches the model: whatever the instructions, the
   * prompt is the instructions, a blank line, the context header, the
   * entries of the files before `i`, file `i`'s entry, the entries after
   * it, then the labelled request.
   */
  lemma FileReachesModel(instructions: string, prompt: string, files: Dict<string>, i: nat)
    requires i < |files|
    ensures ModelPrompt(instructions, prompt, BuildContext(files))
            == (instructions + "\n\n" + ContextHeader + Entries(files[..i])) + Entry(files[i].0, files[i].1)
               + (Entries(files[i + 1..]) + RequestLabel + prompt)
  {
    var whole := Entries(files);
    var front := Entries(files[..i]);
    var e := Entry(files[i].0, files[i].1);
    var back := Entries(files[i + 1..]);
    var context := BuildContext(files);
    EntriesAround(files, i);
    PromptAround(instructions, prompt, context, ContextHeader, whole, front, e, back);
  }

  /** The prompt split around one piece of the context. */
  lemma PromptAround(instructions: string, prompt: string, context: string,
                     header: string, whole: string, before: string, e: string, after: string)
    requires context == header + whole && whole == before + e + after
    ensures ModelPrompt(instructions, prompt, context)
            == (instructions + "\n\n" + header + before) + e + (after + RequestLabel + prompt)
  {
    var lead := instructions + "\n\n";
    var tail := RequestLabel + prompt;
    assert ModelPrompt(instructions, prompt, context) == lead + context + tail;
    Spread(lead, header, before, e, after, tail);
  }

  lemma Spread(lead: string, header: string, before: string, e: string, after: string, tail: string)
    ensures lead + (header + (before + e + after)) + tail == (lead + header + before) + e + (after + tail)
  {
  }

  /** The entries of the files before `i`, then file `i`'s, then those after it. */
  lemma {:induction false} EntriesAround(files: seq<(string, string)>, i: nat)
    requires i < |files|
    ensures Entries(files) == Entries(files[..i]) + Entry(files[i].0, files[i].1) + Entries(files[i + 1..])
    decreases i
  {
    if i > 0 {
      var rest := files[1..];
      var first := Entry(files[0].0, files[0].1);
      var e := Entry(files[i].0, files[i].1);
      EntriesAround(rest, i - 1);
      assert rest[i - 1] == files[i];
      assert rest[i..] == files[i + 1..];
      var front := files[..i];
      assert front[0] == files[0] && front[1..] == rest[..i - 1];
      assert Entries(front) == first + Entries(rest[..i - 1]);
      assert Entries(files) == first + Entries(rest);
      Regroup(first, Entries(rest[..i - 1]), e, Entries(rest[i..]));
    } else {
      assert files[..0] == [];
      assert files[1..] == files[i + 1..];
    }
  }

  lemma Regroup(a: string, b: string, c: string, d: string)
    ensures a + (b + c + d) == (a + b) + c + d
  {
  }

  /** `generate_code`'s return value: the model's answer, or the failure prefix and the error text. */
  function ReplyText(outcome: Outcome): (reply: string)
    ensures outcome.Answered? ==> reply == outcome.response
    ensures outcome.Failed? ==> StartsWith(reply, GenerateFailure) && reply[|GenerateFailure|..] == outcome.reason
  {
    match outcome
    case Answered(response) => response
    case Failed(reason) => GenerateFailure + reason
  }

  /** The JSON bodies the routes return. */
  datatype Body = Reply(response: string) | Notice(message: string) | Problem(error: string)

  datatype Response = Response(status: int, body: Body)

  /** A `/api/generate` body: `prompt` and `fileContext` may each be missing. */
  datatype GenerateRequest = GenerateRequest(prompt: Option<string>, fileContext: Option<Dict<string>>)

  /** `not prompt` in Python: a missing or empty prompt. */
  predicate Blank(value: Option<string>) {
    value.None? || value.value == ""
  }

  /** The route's copy of `fileContext` into `context_with_paths`, one entry at a time. */
  method CopyContext(files: Dict<string>) returns (copy: Dict<string>)
    ensures copy == files
  {
    copy := [];
    var i := 0;
    while i < |files|
      invariant 0 <= i <= |files|
      invariant copy == files[..i]
    {
      assert files[i].0 !in Keys(files[..i]) by {
        assert forall j :: 0 <= j < i ==> files[..i][j].0 == files[j].0;
      }
      copy := Set(copy, files[i].0, files[i].1);
      assert files[..i + 1] == files[..i] + [files[i]];
      i := i + 1;
    }
    assert files[..|files|] == files;
  }

  /**
   * `/api/generate`: a blank prompt is refused with 400 before the model is
   * asked anything; otherwise the model gets the prompt built from the request's
   * files (none when `fileContext` is missing) and its reply goes back with 200.
   * `sent` is the request posted to the model server, if any.
   */
  method Generate(req: GenerateRequest, backend: ModelRequest -> Outcome) returns (resp: Response, sent: Option<ModelRequest>)
    ensures Blank(req.prompt) <==> sent.None?
    ensures Blank(req.prompt) ==> resp == Response(400, Problem(EmptyPrompt))
    ensures !Blank(req.prompt) ==>
              sent == Some(ModelRequestFor(req.prompt.value, req.fileContext.GetOr([])))
              && resp == Response(200, Reply(ReplyText(backend(sent.value))))
  {
    if Blank(req.prompt) {
      return Response(400, Problem(EmptyPrompt)), None;
    }
    var files := CopyContext(req.fileContext.GetOr([]));
    var request := ModelRequestFor(req.prompt.value, files);
    sent := Some(request);
    resp := Response(200, Reply(ReplyText(backend(request))));
  }

  /** A `/api/apply` body: `file_path` and `code` may each be missing. */
  datatype ApplyRequest = ApplyRequest(filePath: Option<string>, code: Option<string>)

  /** The write the route performs: none unless both the path and the code are present and non-empty. */
  function ApplyTarget(req: ApplyRequest): (target: Option<(string, string)>)
    ensures target.None? <==> Blank(req.filePath) || Blank(req.code)
    ensures target.Some? ==> target.value == (req.filePath.value, req.code.value) && target.value.0 != "" && target.value.1 != ""
  {
    if Blank(req.filePath) || Blank(req.code) then None else Some((req.filePath.value, req.code.value))
  }

  /**
   * `/api/apply`: 400 for a blank path or code; otherwise `write` (the
   * filesystem, true when the file was written) decides between 200 with a
   * message naming the path and 500 with an error naming it.
   */
  function Apply(req: ApplyRequest, write: (string, string) -> bool): (resp: Response)
    ensures resp.status == 400 <==> ApplyTarget(req).None?
    ensures resp.status == 400 ==> resp.body == Problem(EmptyApply)
    ensures resp.status == 200 <==> ApplyTarget(req).Some? && write(req.filePath.value, req.code.value)
    ensures resp.status == 200 ==> resp.body == Notice("更改已成功应用到 " + req.filePath.value)
    ensures resp.status == 500 ==> resp.body == Problem("应用更改到 " + req.filePath.value + " 失败")
    ensures resp.status in {200, 400, 500}
  {
    match ApplyTarget(req)
    case None => Response(400, Problem(EmptyApply))
    case Some((path, code)) =>
      if write(path, code) then Response(200, Notice("更改已成功应用到 " + path))
      else Response(500, Problem("应用更改到 " + path + " 失败"))
  }
}
