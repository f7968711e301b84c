/**
 * The server writes each selected file into the prompt as a fence headed
 * `ext:path` (`mock_cursor_web.py`), the same header convention the system
 * prompt asks the model to reuse and that the page's `createCodeBlock`
 * (`static/js/main.js`) reads back. This module connects the two: shown as an
 * assistant reply, a one-file context parses back into its path and content.
 */
module RoundTrip {
  import opened Text
  import opened Transcript
  import Server

  /** A path the header convention carries intact: no colon, newline or backtick, no surrounding whitespace. */
  predicate PlainPath(p: string) {
    p != "" && Trim(p) == p && Lacks(p, ':') && Lacks(p, '\n') && Lacks(p, '`')
  }

  /**
   * The context for one plain file, shown as an assistant reply, is the
   * header line naming the file and one code block carrying exactly that path
   * and the content without its trailing whitespace.
   */
  lemma ContextRoundTrip(sender: Sender, path: string, content: string)
    requires sender == Assistant && PlainPath(path) && !Contains(content, Fence)
    ensures MessageBlocks(sender, Server.BuildContext([(path, content)]))
            == [Markdown(Server.ContextHeader + "\n文件 " + path + ":"), Code(path, TrimEnd(content))]
  {
    var ext := LastSegment(path, ".");
    var a := Server.ContextHeader + "\n文件 " + path + ":\n";
    var b := ext + ":" + path + "\n" + content + "\n";
    var context := Server.BuildContext([(path, content)]);
    ContextSplit(path, content);
    MessageThreeParts(sender, a, b, "\n", context);
    ExtensionLacks(path, ':');
    ExtensionLacks(path, '\n');
    EntryBlock(ext, path, content);
    HeaderProse(path);
  }

  /** The serialised context holds two fences, around the entry's code. */
  lemma ContextSplit(path: string, content: string)
    requires PlainPath(path) && !Contains(content, Fence)
    ensures Contains(Server.BuildContext([(path, content)]), Fence)
    ensures Split(Server.BuildContext([(path, content)]), Fence)
            == [Server.ContextHeader + "\n文件 " + path + ":\n",
                LastSegment(path, ".") + ":" + path + "\n" + content + "\n", "\n"]
  {
    var ext := LastSegment(path, ".");
    var a := Server.ContextHeader + "\n文件 " + path + ":\n";
    var b := ext + ":" + path + "\n" + content + "\n";
    SingleContext(path, content);
    ExtensionLacks(path, '`');
    HeaderFree(path);
    BodyFree(ext, path, content);
    Absent("\n", Fence);
    FenceParts(a, b, "\n");
  }

  lemma SingleContext(path: string, content: string)
    ensures Server.BuildContext([(path, content)])
            == (Server.ContextHeader + "\n文件 " + path + ":\n") + Fence
               + (LastSegment(path, ".") + ":" + path + "\n" + content + "\n") + Fence + "\n"
  {
    SingleEntry(path, content);
    EntryPieces(path, content, LastSegment(path, "."));
  }

  lemma SingleEntry(path: string, content: string)
    ensures Server.BuildContext([(path, content)]) == Server.ContextHeader + Server.Entry(path, content)
  {
    assert [(path, content)][1..] == [];
    assert Server.Entries([(path, content)]) == Server.Entry(path, content) + Server.Entries([]);
  }

  lemma EntryPieces(path: string, content: string, ext: string)
    requires ext == LastSegment(path, ".")
    ensures Server.ContextHeader + Server.Entry(path, content)
            == (Server.ContextHeader + "\n文件 " + path + ":\n") + Fence
               + (ext + ":" + path + "\n" + content + "\n") + Fence + "\n"
  {
  }

  /** The extension is a piece of the path, so it lacks whatever the path lacks. */
  lemma ExtensionLacks(path: string, c: char)
    requires Lacks(path, c)
    ensures Lacks(LastSegment(path, "."), c)
  {
    LastSegmentFacts(path, ".");
    if Contains(path, ".") {
      var pre :| path == pre + "." + LastSegment(path, ".");
    }
  }

  lemma HeaderFree(path: string)
    requires Lacks(path, '`')
    ensures !Contains((Server.ContextHeader + "\n文件 " + path + ":\n") + "``", Fence)
  {
    NoStartBefore(Server.ContextHeader + "\n文件 " + path + ":\n", "``", Fence);
  }

  lemma BodyFree(ext: string, path: string, content: string)
    requires Lacks(ext, '`') && Lacks(path, '`') && !Contains(content, Fence)
    ensures !Contains((ext + ":" + path + "\n" + content + "\n") + "``", Fence)
  {
    var head := ext + ":" + path;
    Absent(head, Fence);
    ContainsAround(head, '\n', content, Fence);
    ContainsAround(head + "\n" + content, '\n', "``", Fence);
    assert (ext + ":" + path + "\n" + content + "\n") + "``" == (head + "\n" + content) + ['\n'] + "``";
    assert head + "\n" + content == head + ['\n'] + content;
  }

  /** A non-empty trimmed string starts and ends with a non-whitespace character. */
  lemma TrimmedEnds(p: string)
    requires p != "" && Trim(p) == p
    ensures !IsWhitespace(p[0]) && !IsWhitespace(p[|p| - 1])
  {
    TrimStartFacts(p);
    TrimEndFacts(TrimStart(p));
    assert TrimStart(p) == p;
    TrimEndFacts(p);
  }

  /** The prose around the fences: the header line, and the lone newline after the last fence, which is dropped. */
  lemma HeaderProse(path: string)
    requires PlainPath(path)
    ensures Prose(Server.ContextHeader + "\n文件 " + path + ":\n") == [Markdown(Server.ContextHeader + "\n文件 " + path + ":")]
    ensures Prose("\n") == []
  {
    var x := Server.ContextHeader + "\n文件 " + path + ":";
    assert x[|x| - 1] == ':';
    assert TrimEnd(x) == x;
    TrimEndBlank(x, "\n");
    assert x + "\n" == Server.ContextHeader + "\n文件 " + path + ":\n";
    assert TrimStart(x + "\n") == x + "\n";
    assert TrimStart("\n") == "";
  }

  /** `createCodeBlock` on a serialised entry: the path after the colon, the content trimmed at the end. */
  lemma EntryBlock(ext: string, path: string, content: string)
    requires PlainPath(path) && Lacks(ext, ':') && Lacks(ext, '\n')
    ensures CreateCodeBlock(ext + ":" + path + "\n" + content + "\n") == Code(path, TrimEnd(content))
  {
    var b := ext + ":" + path + "\n" + content + "\n";
    var lead := TrimStart(ext);
    var head := lead + ":" + path;
    var rest := if TrimEnd(content) == "" then "" else "\n" + TrimEnd(content);
    EntryTrim(ext, path, content);
    TrimStartFacts(ext);
    Absent(head, "\n");
    Absent(lead, ":");
    Absent(path, ":");
    assert head == lead + ":" + path + "";
    CodeBlockMeaning(b, head, rest, lead, path, "");
  }

  /** The trimmed entry: the extension's leading whitespace and the content's trailing whitespace go. */
  lemma EntryTrim(ext: string, path: string, content: string)
    requires PlainPath(path)
    ensures Trim(ext + ":" + path + "\n" + content + "\n")
            == TrimStart(ext) + ":" + path + (if TrimEnd(content) == "" then "" else "\n" + TrimEnd(content))
  {
    var head := TrimStart(ext) + ":" + path;
    EntryFront(ext, path, content);
    TrimmedEnds(path);
    assert head[|head| - 1] == path[|path| - 1];
    EntryTrimEnd(head, content);
  }

  lemma EntryFront(ext: string, path: string, content: string)
    ensures TrimStart(ext + ":" + path + "\n" + content + "\n") == (TrimStart(ext) + ":" + path) + "\n" + content + "\n"
  {
    var tail := ":" + path + "\n" + content + "\n";
    EntryTrimStart(ext, tail);
    assert ext + ":" + path + "\n" + content + "\n" == ext + tail;
    assert TrimStart(ext) + tail == (TrimStart(ext) + ":" + path) + "\n" + content + "\n";
  }

  /** Leading whitespace of the extension is all that trimming removes at the front. */
  lemma EntryTrimStart(ext: string, tail: string)
    requires tail != [] && tail[0] == ':'
    ensures TrimStart(ext + tail) == TrimStart(ext) + tail
  {
    if TrimStart(ext) != "" {
      TrimStartAppend(ext, tail);
    } else {
      TrimStartFacts(ext);
      assert ext[..|ext|] == ext;
      TrimStartBlank(ext, tail);
    }
  }

  /** Trailing whitespace of the content, and the newline after it, is all that trimming removes at the end. */
  lemma EntryTrimEnd(head: string, content: string)
    requires head != "" && !IsWhitespace(head[|head| - 1])
    ensures TrimEnd(head + "\n" + content + "\n")
            == head + (if TrimEnd(content) == "" then "" else "\n" + TrimEnd(content))
  {
    if TrimEnd(content) != "" {
      TrimEndKept(head, content);
    } else {
      TrimEndDropped(head, content);
    }
  }

  lemma TrimEndKept(head: string, content: string)
    requires TrimEnd(content) != ""
    ensures TrimEnd(head + "\n" + content + "\n") == head + "\n" + TrimEnd(content)
  {
    var x := head + "\n";
    var z := content + "\n";
    assert head + "\n" + content + "\n" == x + z;
    TrimEndBlank(content, "\n");
    TrimEndAppend(x, z);
  }

  lemma TrimEndDropped(head: string, content: string)
    requires TrimEnd(content) == ""
    requires head != "" && !IsWhitespace(head[|head| - 1])
    ensures TrimEnd(head + "\n" + content + "\n") == head
  {
    TrimEndFacts(content);
    assert content[0..] == content;
    var blank := "\n" + content + "\n";
    assert AllWhitespace(blank) by {
      forall i | 0 <= i < |blank|
        ensures IsWhitespace(blank[i])
      {
        if 0 < i < |blank| - 1 {
          assert blank[i] == content[i - 1];
        }
      }
    }
    assert head + "\n" + content + "\n" == head + blank;
    TrimEndBlank(head, blank);
  }
}
