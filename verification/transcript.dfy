/**
 * How the chat panel turns one message into display blocks (`appendMessage`
 * and `createCodeBlock` in `static/js/main.js`): an assistant message holding a
 * triple-backtick fence is cut at every fence; the even parts are prose, the
 * odd parts code blocks whose first line may name a file.
 */
module Transcript {
  import opened Text

  /** The header a code block shows when its first line names no file. */
  const Unspecified := "未指定文件"
  /** The highlighting class every code block gets, whatever its file. */
  const CodeClass := "language-python"

  /**
   * Who a chat message is from: the four names the page ever passes to
   * `appendMessage` (the user's prompt, the generator's reply, apply
   * confirmations, and errors).
   */
  datatype Sender = You | Assistant | System | Error

  datatype Block =
    | Markdown(text: string)
    | Code(filePath: string, code: string)

  /**
   * `createCodeBlock`: a first line (of the trimmed part) holding a colon names
   * the file by the trimmed text after its first colon, up to the next one,
   * and the code is the rest of the trimmed part; otherwise the whole untrimmed
   * part is the code.
   */
  function CreateCodeBlock(part: string): (b: Block)
    ensures b.Code?
  {
    var lines := Split(Trim(part), "\n");
    if Contains(lines[0], ":") then
      SplitCount(lines[0], ":");
      OccurrencesContains(lines[0], ":");
      Code(Trim(Split(lines[0], ":")[1]), Join(lines[1..], "\n"))
    else
      Code(Unspecified, part)
  }

  /**
   * What `CreateCodeBlock` extracts, stated without `Split`: write the trimmed
   * part as a first line `head` and a `rest` that is empty or starts at the
   * first newline. With no colon in `head` the block is unnamed and keeps the
   * whole part; with `head == before + ":" + seg + after`, `before` and `seg`
   * colon-free and `after` empty or starting at the second colon, the file is
   * `Trim(seg)` and the code is everything after the first newline.
   */
  lemma CodeBlockMeaning(part: string, head: string, rest: string, before: string, seg: string, after: string)
    requires Trim(part) == head + rest && !Contains(head, "\n") && (rest == "" || rest[0] == '\n')
    ensures !Contains(head, ":") ==> CreateCodeBlock(part) == Code(Unspecified, part)
    ensures head == before + ":" + seg + after && !Contains(before, ":") && !Contains(seg, ":")
              && (after == "" || after[0] == ':')
            ==> CreateCodeBlock(part) == Code(Trim(seg), if rest == "" then "" else rest[1..])
  {
    SplitFirst(Trim(part), '\n', head, rest);
    var lines := Split(Trim(part), "\n");
    if head == before + ":" + seg + after && !Contains(before, ":") && !Contains(seg, ":")
       && (after == "" || after[0] == ':') {
      SecondField(head, before, seg, after);
      if rest == "" {
        assert lines[1..] == [];
      }
    }
  }

  /** The field after the first colon of `before + ":" + seg + after`. */
  lemma SecondField(head: string, before: string, seg: string, after: string)
    requires head == before + ":" + seg + after && !Contains(before, ":") && !Contains(seg, ":")
    requires after == "" || after[0] == ':'
    ensures Contains(head, ":") && |Split(head, ":")| >= 2 && Split(head, ":")[1] == seg
  {
    var tail := seg + after;
    FirstField(head, before, tail);
    assert ":" == [':'];
    SplitFirst(tail, ':', seg, after);
    var parts := Split(tail, ":");
    assert parts == Split(tail, [':']) && parts[0] == seg;
    assert Split(head, ":") == [before] + parts;
  }

  lemma FirstField(head: string, before: string, tail: string)
    requires head == before + ":" + tail && !Contains(before, ":")
    ensures Contains(head, ":") && Split(head, ":") == [before] + Split(tail, ":")
  {
    ContainsSeparator(before, ":", tail);
    assert before + ":"[..0] == before;
    SplitAt(before, ":", tail);
  }

  /** The code blocks of a display, in order. */
  function CodeBlocks(bs: seq<Block>): seq<Block>
    decreases |bs|
  {
    if bs == [] then []
    else (if bs[0].Code? then [bs[0]] else []) + CodeBlocks(bs[1..])
  }

  lemma {:induction false} CodeBlocksAppend(a: seq<Block>, b: seq<Block>)
    ensures CodeBlocks(a + b) == CodeBlocks(a) + CodeBlocks(b)
    decreases |a|
  {
    if a == [] {
      assert a + b == b;
    } else {
      var ab := a + b;
      var front := if a[0].Code? then [a[0]] else [];
      assert ab[0] == a[0];
      assert ab[1..] == a[1..] + b;
      assert CodeBlocks(ab) == front + CodeBlocks(ab[1..]);
      assert CodeBlocks(a) == front + CodeBlocks(a[1..]);
      CodeBlocksAppend(a[1..], b);
    }
  }

  /** A prose part is shown, trimmed, only when something is left after trimming. */
  function Prose(part: string): (bs: seq<Block>)
    ensures |bs| <= 1
    ensures forall i :: 0 <= i < |bs| ==> bs[i] == Markdown(Trim(part)) && Trim(part) != ""
    ensures Trim(part) != "" ==> |bs| == 1
  {
    if Trim(part) != "" then [Markdown(Trim(part))] else []
  }

  /** Prose blocks carry non-empty text that trimming leaves unchanged. */
  ghost predicate ProseIsTrimmed(bs: seq<Block>) {
    forall i :: 0 <= i < |bs| && bs[i].Markdown? ==> bs[i].text != "" && Trim(bs[i].text) == bs[i].text
  }

  /**
   * The blocks of the parts between fences: part `2k` is prose, part `2k + 1`
   * is code. The code blocks are exactly the `CreateCodeBlock` of the odd
   * parts, in order, and every prose block is trimmed and non-empty.
   */
  function PartsBlocks(parts: seq<string>): (bs: seq<Block>)
    ensures CodeBlocks(bs) == OddParts(parts)
    ensures ProseIsTrimmed(bs)
    decreases |parts|
  {
    if |parts| == 0 then []
    else if |parts| == 1 then
      ProseFacts(parts[0]);
      Prose(parts[0])
    else
      var tail := PartsBlocks(parts[2..]);
      PairFacts(parts, tail);
      Prose(parts[0]) + [CreateCodeBlock(parts[1])] + tail
  }

  /** The code blocks the odd parts make, in order. */
  function OddParts(parts: seq<string>): (r: seq<Block>)
    ensures |r| == |parts| / 2
    ensures forall k :: 0 <= k < |r| ==> r[k] == CreateCodeBlock(parts[2 * k + 1])
  {
    seq(|parts| / 2, k requires 0 <= k < |parts| / 2 => CreateCodeBlock(parts[2 * k + 1]))
  }

  lemma ProseFacts(part: string)
    ensures CodeBlocks(Prose(part)) == []
    ensures ProseIsTrimmed(Prose(part))
  {
    ProseNoCode(part);
    ProseTrimmed(part);
  }

  lemma ProseNoCode(part: string)
    ensures CodeBlocks(Prose(part)) == []
  {
    if Prose(part) != [] {
      assert Prose(part)[1..] == [];
    }
  }

  lemma ProseTrimmed(part: string)
    ensures ProseIsTrimmed(Prose(part))
  {
    TrimTwice(part);
  }

  /** One prose part and one code part in front of a display already built. */
  lemma PairFacts(parts: seq<string>, tail: seq<Block>)
    requires |parts| >= 2
    requires CodeBlocks(tail) == OddParts(parts[2..]) && ProseIsTrimmed(tail)
    ensures CodeBlocks(Prose(parts[0]) + [CreateCodeBlock(parts[1])] + tail) == OddParts(parts)
    ensures ProseIsTrimmed(Prose(parts[0]) + [CreateCodeBlock(parts[1])] + tail)
  {
    PairCode(parts, tail);
    ProseTrimmed(parts[0]);
    PairTrimmed(Prose(parts[0]), CreateCodeBlock(parts[1]), tail);
  }

  lemma PairCode(parts: seq<string>, tail: seq<Block>)
    requires |parts| >= 2
    requires CodeBlocks(tail) == OddParts(parts[2..])
    ensures CodeBlocks(Prose(parts[0]) + [CreateCodeBlock(parts[1])] + tail) == OddParts(parts)
  {
    ProseNoCode(parts[0]);
    CodeInFront(Prose(parts[0]), CreateCodeBlock(parts[1]), tail);
    OddPartsStep(parts);
  }

  lemma CodeInFront(prose: seq<Block>, code: Block, tail: seq<Block>)
    requires CodeBlocks(prose) == [] && code.Code?
    ensures CodeBlocks(prose + [code] + tail) == [code] + CodeBlocks(tail)
  {
    CodeBlocksAppend(prose + [code], tail);
    CodeBlocksAppend(prose, [code]);
    assert [code][1..] == [];
  }

  lemma OddPartsStep(parts: seq<string>)
    requires |parts| >= 2
    ensures OddParts(parts) == [CreateCodeBlock(parts[1])] + OddParts(parts[2..])
  {
    var odd := OddParts(parts);
    var rest := OddParts(parts[2..]);
    forall k | 1 <= k < |odd|
      ensures odd[k] == rest[k - 1]
    {
      assert parts[2..][2 * (k - 1) + 1] == parts[2 * k + 1];
    }
  }

  lemma PairTrimmed(prose: seq<Block>, code: Block, tail: seq<Block>)
    requires code.Code? && ProseIsTrimmed(prose) && ProseIsTrimmed(tail)
    ensures ProseIsTrimmed(prose + [code] + tail)
  {
    var bs := prose + [code] + tail;
    forall i | 0 <= i < |bs| && bs[i].Markdown?
      ensures bs[i].text != "" && Trim(bs[i].text) == bs[i].text
    {
      if i >= |prose| + 1 {
        assert bs[i] == tail[i - |prose| - 1];
      } else {
        assert bs[i] == prose[i];
      }
    }
  }

  /** What the part at position `i` shows: prose at even positions, a code block at odd ones. */
  function PartShown(i: nat, part: string): seq<Block> {
    if i % 2 == 0 then Prose(part) else [CreateCodeBlock(part)]
  }

  /** The loop over the parts from position `i` on, each part's blocks appended in turn. */
  function Shown(parts: seq<string>, i: nat): seq<Block>
    requires i <= |parts|
    decreases |parts| - i
  {
    if i == |parts| then [] else PartShown(i, parts[i]) + Shown(parts, i + 1)
  }

  /** Taking the parts two at a time displays exactly what the part-by-part loop does. */
  lemma {:induction false} PartsShown(parts: seq<string>, i: nat)
    requires i % 2 == 0 && i <= |parts|
    ensures PartsBlocks(parts[i..]) == Shown(parts, i)
    decreases |parts| - i
  {
    var p := parts[i..];
    if |p| == 1 {
      assert Shown(parts, i) == Prose(parts[i]) + Shown(parts, i + 1);
    } else if |p| >= 2 {
      PartsShown(parts, i + 2);
      assert p[2..] == parts[i + 2..];
      PartsPair(p);
      ShownPair(parts, i);
    }
  }

  lemma PartsPair(p: seq<string>)
    requires |p| >= 2
    ensures PartsBlocks(p) == Prose(p[0]) + [CreateCodeBlock(p[1])] + PartsBlocks(p[2..])
  {
  }

  lemma ShownPair(parts: seq<string>, i: nat)
    requires i % 2 == 0 && i + 2 <= |parts|
    ensures Shown(parts, i) == Prose(parts[i]) + [CreateCodeBlock(parts[i + 1])] + Shown(parts, i + 2)
  {
    assert Shown(parts, i + 1) == [CreateCodeBlock(parts[i + 1])] + Shown(parts, i + 2);
  }

  /**
   * `appendMessage`: only an assistant message containing a fence is split;
   * any other message is one prose block holding the content as it is. A split
   * message shows, part after part, each non-blank even part as trimmed prose
   * and each odd part as a code block.
   */
  function MessageBlocks(sender: Sender, content: string): (bs: seq<Block>)
    ensures !(sender == Assistant && Contains(content, Fence)) ==> bs == [Markdown(content)]
    ensures sender == Assistant && Contains(content, Fence) ==> bs == Shown(Split(content, Fence), 0)
    ensures sender == Assistant && Contains(content, Fence) ==>
              CodeBlocks(bs) == OddParts(Split(content, Fence)) && ProseIsTrimmed(bs)
  {
    if sender == Assistant && Contains(content, Fence) then
      var parts := Split(content, Fence);
      PartsShown(parts, 0);
      assert parts[0..] == parts;
      PartsBlocks(parts)
    else
      [Markdown(content)]
  }

  /** A reply with `n` fences shows `(n + 1) / 2` code blocks: an unclosed last fence still opens one. */
  lemma CodeBlockCount(content: string)
    requires Contains(content, Fence)
    ensures |CodeBlocks(MessageBlocks(Assistant, content))| == (Occurrences(content, Fence) + 1) / 2
  {
    SplitCount(content, Fence);
  }

  /**
   * An assistant reply with one fenced block written on a single line,
   * `pre ```name:text``` post`: the whole inner part is its own first line, so
   * the text after the colon becomes the file name and the code is empty.
   */
  lemma {:induction false} OneLineFence(sender: Sender, pre: string, name: string, text: string, post: string)
    requires sender == Assistant
    requires Lacks(pre, '`') && Lacks(name, '`') && Lacks(text, '`') && Lacks(post, '`')
    requires Lacks(name, ':') && Lacks(text, ':') && Lacks(name, '\n') && Lacks(text, '\n')
    requires Trim(name + ":" + text) == name + ":" + text
    requires Trim(pre) != "" && Trim(post) != ""
    ensures MessageBlocks(sender, pre + Fence + name + ":" + text + Fence + post)
            == [Markdown(Trim(pre)), Code(Trim(text), ""), Markdown(Trim(post))]
  {
    var content := pre + Fence + name + ":" + text + Fence + post;
    OneLineSplit(pre, name, text, post);
    MessageThreeParts(sender, pre, name + ":" + text, post, content);
    OneLineCode(name, text);
    ProseAround(pre, CreateCodeBlock(name + ":" + text), post);
  }

  lemma ProseAround(pre: string, c: Block, post: string)
    requires Trim(pre) != "" && Trim(post) != ""
    ensures Prose(pre) + [c] + Prose(post) == [Markdown(Trim(pre)), c, Markdown(Trim(post))]
  {
    assert Prose(pre) == [Markdown(Trim(pre))];
    assert Prose(post) == [Markdown(Trim(post))];
  }

  lemma OneLineSplit(pre: string, name: string, text: string, post: string)
    requires Lacks(pre, '`') && Lacks(name, '`') && Lacks(text, '`') && Lacks(post, '`')
    ensures var content := pre + Fence + name + ":" + text + Fence + post;
      Contains(content, Fence) && Split(content, Fence) == [pre, name + ":" + text, post]
  {
    var inner := name + ":" + text;
    var content := pre + Fence + name + ":" + text + Fence + post;
    assert content == pre + Fence + inner + Fence + post;
    NoStartBefore(pre, "``", Fence);
    NoStartBefore(inner, "``", Fence);
    Absent(post, Fence);
    FenceParts(pre, inner, post);
  }

  lemma MessageThreeParts(sender: Sender, pre: string, inner: string, post: string, content: string)
    requires sender == Assistant
    requires Contains(content, Fence) && Split(content, Fence) == [pre, inner, post]
    ensures MessageBlocks(sender, content) == Prose(pre) + [CreateCodeBlock(inner)] + Prose(post)
  {
    MessageIsParts(sender, content);
    ThreeParts(pre, inner, post);
  }

  lemma MessageIsParts(sender: Sender, content: string)
    requires sender == Assistant && Contains(content, Fence)
    ensures MessageBlocks(sender, content) == PartsBlocks(Split(content, Fence))
  {
  }

  lemma ThreeParts(a: string, b: string, c: string)
    ensures PartsBlocks([a, b, c]) == Prose(a) + [CreateCodeBlock(b)] + Prose(c)
  {
    var p := [a, b, c];
    assert p[2..] == [c];
    assert PartsBlocks([c]) == Prose(c);
    assert PartsBlocks(p) == Prose(p[0]) + [CreateCodeBlock(p[1])] + PartsBlocks(p[2..]);
  }

  /**
   * Two fences with no other fence before, between or after them (not even one
   * overlapping a fence's start) cut the text into the three pieces around them.
   */
  lemma FenceParts(pre: string, inner: string, post: string)
    requires !Contains(pre + "``", Fence) && !Contains(inner + "``", Fence) && !Contains(post, Fence)
    ensures Contains(pre + Fence + inner + Fence + post, Fence)
    ensures Split(pre + Fence + inner + Fence + post, Fence) == [pre, inner, post]
  {
    var content := pre + Fence + inner + Fence + post;
    assert content == pre + Fence + (inner + Fence + post);
    ContainsSeparator(pre, Fence, inner + Fence + post);
    assert Fence[..2] == "``";
    SplitAt(pre, Fence, inner + Fence + post);
    SplitAt(inner, Fence, post);
    SplitAbsent(post, Fence);
  }

  lemma OneLineCode(name: string, text: string)
    requires Lacks(name, ':') && Lacks(text, ':') && Lacks(name, '\n') && Lacks(text, '\n')
    requires Trim(name + ":" + text) == name + ":" + text
    ensures CreateCodeBlock(name + ":" + text) == Code(Trim(text), "")
  {
    var inner := name + ":" + text;
    Absent(inner, "\n");
    Absent(name, ":");
    Absent(text, ":");
    assert inner == name + ":" + text + "";
    CodeBlockMeaning(inner, inner, "", name, text, "");
  }
}
