# fake_cursor core, modelled in Dafny

fake_cursor is a small browser-based code assistant. The page (`static/js/main.js`)
lets the user pick a directory. It shows the picked files as a folder tree with
collapsible folders. Ticked files are kept in `fileContext`. The user's request
and the selected files go to a Flask server (`mock_cursor_web.py`). The server
writes the files into a prompt for a local model. The model's reply is shown as
prose and code blocks, and an Apply button posts a block back to be written to
disk.

This project models the pure logic inside that glue:

- `Text`: the string primitives the code relies on. These are `split` with a
  non-empty separator, `join`, `includes`, ECMAScript `trim`, and an ASCII
  `toLowerCase`.
- `Dict`: a JavaScript object or Python dict with string keys, iterated in
  insertion order.
- `FileTree`: `buildFileTree`, the fold that turns the picked files' relative
  paths into nested directory objects.
- `Ordering` and `FileList`: `updateFileList` as a pure function from a directory
  and a path prefix to nested display rows. Folders come first, then files,
  each group sorted by `localeCompare`. `localeCompare` is abstracted as an
  arbitrary strict total order.
- `FolderStates`: `folderStates`, the folder-expansion map, with its default
  and `toggleFolder`.
- `Selection`: `fileContext` together with the ticked checkboxes and the rows
  of the selected-files panel. It covers check, uncheck, remove from the panel
  (with the checkbox lookup that removal performs), and the reset when new
  files are picked.
- `Transcript`: `appendMessage`, which splits an assistant reply at each
  triple-backtick fence, and `createCodeBlock`, which reads a block's file path
  and code.
- `Preview`: the extension and language class used by the preview pane.
- `Server`: the context and prompt that `CodeGenerator.generate_code` builds,
  and the validation and response mapping of `/api/generate` and `/api/apply`.
- `Compose`: `sendMessage`'s chat line and request body, and the body an Apply
  button posts.
- `RoundTrip`: a one-file context, shown as an assistant reply, parses back
  into that file's path and its content with trailing whitespace removed.

The model server, the filesystem write and `FileReader` are not modelled as
I/O. The model server and the filesystem write are function parameters
(`backend`, `write`). A `FileReader` read is assumed to finish at once with the
file's text.

A reply that puts a whole fenced block on one line, such as
``intro ```path.py:code here``` outro``, gets no file path from its header.
The inner part `path.py:code here` is the block's only line, so
`split(':')[1]` is the text after the colon: the block's path is `code here`
and its code is empty. `Transcript.OneLineFence` proves this for every such
one-line block, and `Compose.OneLineBlockRefused` shows that `/api/apply` then
refuses the block.

## Model

| member | source | states |
|---|---|---|
| `Text.Split` | static/js/main.js:338 | splitting always yields at least one part |
| `Text.JoinSplit` | static/js/main.js:372-378 | joining the parts of a split with the same separator gives back the original string |
| `Text.SplitCount` | static/js/main.js:338 | n occurrences of the separator give n + 1 parts |
| `Text.OccurrencesContains` | static/js/main.js:336 | the split scan finds an occurrence exactly when `includes` says there is one |
| `Text.SplitJoinChar` | static/js/main.js:297 | splitting a newline-join of pieces that hold no newline gives back the pieces, in order |
| `Text.LastSegmentFacts` | static/js/main.js:437 | with no separator the last segment is the whole string; otherwise the string is some prefix, the separator, then the last segment; the last segment never holds the separator |
| `Text.LacksContains` | static/js/main.js:437 | a string lacks a character exactly when it does not contain that one-character string |
| `Text.LastSegmentAfter` | static/js/main.js:437 | after a final dot followed by dot-free text, the last segment is exactly that text, whatever precedes it |
| `Text.TrimTwice` | static/js/main.js:342-345 | trimming is idempotent, so a prose block's text is already trimmed |
| `Text.ToLower` | static/js/main.js:437 | lower-casing keeps the length and lower-cases each ASCII letter in place |
| `Dict.Keys` | static/js/main.js:177 | `Object.keys` lists every entry's key once, in iteration order |
| `Dict.Get` | static/js/main.js:156 | a lookup finds a value exactly for present keys, and that value is the one stored with the key |
| `Dict.Set` | static/js/main.js:156 | after an assignment the key maps to the new value and no other key changes; a present key keeps its place; a new key goes last |
| `Dict.Delete` | static/js/main.js:161 | after `delete` the key is absent and no other key changes; deleting an absent key changes nothing; a present key's entry is cut out in place |
| `Dict.SetThenDelete` | static/js/main.js:156-161 | assigning a new key and then deleting it restores the original object, order included |
| `FileTree.Components` | static/js/main.js:60-61 | a path's components join back with `/` to the path |
| `FileTree.Insert` | static/js/main.js:62-70 | inserting into a directory yields a directory; a file met on the way stays as it is and swallows the insert |
| `FileTree.Build` | static/js/main.js:57-73 | the tree built from any listing is a directory object |
| `FileTree.InsertLeafAt` | static/js/main.js:63-69 | with no file blocking the way, inserting at q puts the file at q, leaves no file above or below q, and changes no other path |
| `FileTree.BuildLeafAt` | static/js/main.js:57-71 | for a prefix-free listing, the file reached along any component path is the last input with that path, and paths that no input has reach nothing |
| `FileTree.BuildLeafPaths` | static/js/main.js:57-71 | for a prefix-free listing, a file sits at a component path exactly when some input has that path |
| `FileTree.BuildLeafCount` | static/js/main.js:57-71 | for a prefix-free listing, the file paths of the tree are the inputs' component paths, and there are as many files as distinct input paths |
| `FileTree.BuildPlaced` | static/js/main.js:57-71 | for any listing, every file of the tree sits at its own relative path |
| `Ordering.Sorted` | static/js/main.js:86 | the sorted group lists every name of the group exactly once, in strictly increasing order |
| `FileList.RenderDepicts` | static/js/main.js:76-170 | a directory is shown with one row per entry, folders before files, each group sorted by name; each folder row uses path `prefix + name` and its saved expansion state, and shows its contents under `prefix + name + '/'`; each file row has data path `prefix + name` |
| `FileList.FolderRowsDepict` | static/js/main.js:86-127 | the folder rows follow the sorted names one to one, each showing its folder with the right full path, expansion state and contents |
| `FileList.FileRows` | static/js/main.js:130-137 | the file rows follow the sorted names one to one; each carries data path `prefix + name` and its own file |
| `FileList.GroupsDepict` | static/js/main.js:81-86 | the sorted folder rows followed by the sorted file rows cover every entry once, folders first, each group in order |
| `FileList.RenderDataPaths` | static/js/main.js:137 | in the displayed tree of any listing, every checkbox's data path is the relative path of the file it shows, at any depth |
| `FolderStates.IsExpanded` | static/js/main.js:95 | a folder with no saved state is expanded; otherwise the saved flag decides |
| `FolderStates.Toggle` | static/js/main.js:108-115 | a toggle saves the negation of the folder's current visibility under its full path; every other key keeps its value |
| `FolderStates.ToggleFlips` | static/js/main.js:108-114 | a toggle flips the visibility of its own folder and no other |
| `FolderStates.ToggleTwice` | static/js/main.js:108-114 | two toggles restore every folder's visibility; the map differs only by an explicit flag for that folder |
| `Selection.PanelRows` | static/js/main.js:173-199 | the panel lists exactly the selected paths, one row each |
| `Selection.Deselect` | static/js/main.js:161-162 | the path is no longer selected and no other path changes; only the given checkbox is cleared; the panel is redrawn; clearing the path's own checkbox keeps ticks and selection in agreement |
| `Selection.Step` | static/js/main.js:152-193 | ticking stores the content, ticks the box and redraws the panel; unticking deletes the path, clears its box and redraws; removing deletes the path and clears whatever box the lookup matched, keeps every tick when nothing matched, and also keeps the old panel when the lookup threw; a pick of no files changes nothing; a new pick empties the selection and the ticks but leaves the panel; no other path changes; ticks and selection stay in agreement whenever a removal's lookup finds the path's own box |
| `Selection.RemoveMissKeepsTick` | static/js/main.js:187-193 | a removal whose lookup does not find the path's own checkbox leaves it ticked over a file no longer selected |
| `Selection.NewDirectoryLeavesPanel` | static/js/main.js:29-34 | after a new pick the panel still lists the previous selection over an empty `fileContext` |
| `Selection.FixedStep` | static/js/main.js:152-193 | with the lookup by exact path and a redraw after a new pick, every step keeps ticks, panel and selection in agreement |
| `Selection.FixedStepAgrees` | static/js/main.js:152-193 | the fixed step is the program's step for ticks, unticks and removals whose lookup finds the path's own checkbox |
| `Selection.CheckThenUncheck` | static/js/main.js:152-163 | ticking an unselected file and then unticking it restores the selection and the ticks, with the panel redrawn |
| `Selection.CheckThenRemove` | static/js/main.js:152-193 | ticking an unselected file and then removing it restores the selection and the ticks when the lookup finds its checkbox |
| `Transcript.CreateCodeBlock` | static/js/main.js:367-379 | every fenced part becomes a code block |
| `Transcript.CodeBlockMeaning` | static/js/main.js:372-379 | a first line with no colon gives the unnamed block holding the untrimmed part; otherwise the path is the trimmed text between the first and second colon, and the code is everything after the first line of the trimmed part |
| `Transcript.Prose` | static/js/main.js:340-347 | an even part is shown, trimmed, exactly when it is not blank after trimming |
| `Transcript.PartsBlocks` | static/js/main.js:338-353 | the code blocks are the odd parts' code blocks, in order; every prose block is non-empty and trimmed |
| `Transcript.PartsShown` | static/js/main.js:338-353 | taking the parts two at a time shows exactly what the part-by-part loop shows: each even part as its trimmed prose (nothing when blank), each odd part as its code block, in order |
| `Transcript.MessageBlocks` | static/js/main.js:336-360 | a message not from the assistant, or without a fence, is one prose block of the raw content; otherwise the blocks are those of the fence parts taken in order, each even part as trimmed prose unless blank and each odd part as a code block |
| `Transcript.CodeBlockCount` | static/js/main.js:336-353 | a reply with n fences shows (n + 1) / 2 code blocks, so an unclosed last fence still opens one |
| `Transcript.OneLineFence` | static/js/main.js:336-379 | a reply with one fenced block on a single line shows the prose before it, a block whose path is the text after the colon and whose code is empty, and the prose after it |
| `Transcript.FenceParts` | static/js/main.js:338 | two fences with no other fence around them cut the text into exactly the three pieces around them |
| `Preview.Extension` | static/js/main.js:437 | a path without a dot is its own (lower-cased) extension; the extension is never longer than the path and never holds a dot |
| `Preview.LanguageClass` | static/js/main.js:445-455 | the table's five extensions give their language; every other extension gives `plaintext`; the result is never empty |
| `Preview.PreviewClass` | static/js/main.js:438 | the preview class always starts with `language-` |
| `Preview.ExtensionAfterDot` | static/js/main.js:437-438 | the extension is the lower-cased text after the last dot, whatever comes before it |
| `Preview.CaseBlind` | static/js/main.js:437-438 | extensions that differ only in ASCII letter case get the same class |
| `Server.BuildContext` | mock_cursor_web.py:20-24 | the context is empty exactly when no file is given; otherwise it starts with the header |
| `Server.ContextExtends` | mock_cursor_web.py:23-24 | adding a new file to a non-empty context appends exactly its entry (path line, then a fence headed `ext:path` around the content), so entries follow insertion order |
| `Server.ModelPrompt` | mock_cursor_web.py:31 | the prompt starts with the instructions and a blank line, holds the whole context right after them, and ends with the request label and the user's prompt |
| `Server.ModelRequestFor` | mock_cursor_web.py:27-34 | the model request names `deepseek-coder-v2` without streaming, and its prompt is built from the system prompt and the context of the given files; with no files the prompt is the system prompt, a blank line and the labelled request |
| `Server.BareRequest` | mock_cursor_web.py:20-31 | with an empty context the prompt is the instructions, a blank line and the labelled request |
| `Server.FileReachesModel` | mock_cursor_web.py:20-31 | every selected file's entry is in the prompt: the prompt is the instructions, a blank line, the header, the entries of the files before it, its entry, the entries after it, then the labelled request |
| `Server.ReplyText` | mock_cursor_web.py:35-38 | a model answer is returned as is; a failure becomes the fixed error prefix followed by the error text |
| `Server.CopyContext` | mock_cursor_web.py:87-89 | the copied context equals the request's, entry for entry and in order |
| `Server.Generate` | mock_cursor_web.py:77-92 | a missing or empty prompt gives 400 with the error body and no model call; otherwise the model receives the prompt built from the request's files (none when absent), and its reply comes back with 200 |
| `Server.ApplyTarget` | mock_cursor_web.py:97-100 | a write happens exactly when both path and code are present and non-empty, and it is of those two values |
| `Server.Apply` | mock_cursor_web.py:94-106 | 400 with the fixed error exactly when path or code is missing or empty; otherwise 200 with a message naming the path when the write succeeds, and 500 with an error naming the path when it fails |
| `Compose.SendMessage` | static/js/main.js:288-311 | a blank prompt sends nothing; otherwise the request carries the trimmed prompt and the whole selection; the chat line is the trimmed prompt, followed by the header and the newline-joined selected paths only when something is selected |
| `Compose.SelectionListed` | static/js/main.js:295-297 | when no selected path holds a newline, the paths in the chat line split back into the selection's keys, in order |
| `Compose.UserLineIsProse` | static/js/main.js:299 | the user's own chat line is always one prose block, even when it contains fences |
| `Compose.SentIsAccepted` | static/js/main.js:308-311 | every body the page posts passes the server's prompt check, and the model sees exactly the page's selection |
| `Compose.ApplyRequestOf` | static/js/main.js:407-415 | an Apply body is refused exactly when the block's path or code is empty; otherwise the write is of the block's path and code |
| `Compose.OneLineBlockRefused` | static/js/main.js:372-378 | the code block of a one-line fenced reply is always refused by `/api/apply` with 400 |
| `Compose.EmptyCodeRefused` | mock_cursor_web.py:99-100 | a code block with no code is refused with 400 |
| `RoundTrip.ContextSplit` | mock_cursor_web.py:22-24 | a one-file context for a plain path and fence-free content holds exactly two fences, around `ext:path`, the content and a newline |
| `RoundTrip.EntryBlock` | static/js/main.js:372-378 | `createCodeBlock` applied to a serialised entry recovers the path and the content without its trailing whitespace |
| `RoundTrip.ContextRoundTrip` | mock_cursor_web.py:22-24 | a one-file context, shown as an assistant reply, is the header line naming the file followed by one code block with exactly that path and the content without trailing whitespace |

## Left out

- The DOM, `innerHTML`, CSS and scrolling are pure rendering. Rows stand for DOM nodes, and a folder row holds its contents as the DOM does. The `onclick` string built for the Apply button is not modelled. Because that interpolation is unescaped, a path or code with a quote or backtick would break it.
- `localStorage` is not modelled, including reading and writing `folderStates`, the cached work directory and the JSON parse fallback. The in-memory maps are the model.
- The `FileReader` reads are not modelled as asynchronous. A tick stores the file's text at once. The race where a late `onload` re-adds a file that was unticked is therefore not modelled.
- `fetch`, the Flask routing and `request`/`jsonify` are network plumbing. The call to the model server is the `backend` parameter of `Server.Generate`, and the file write is the `write` parameter of `Server.Apply`. `CodeGenerator.apply_changes` itself, with its `makedirs` and `open`, is filesystem I/O.
- The `/api/upload` route is not modelled; it is file upload I/O.
- example.py is not modelled; it is image I/O and floating-point histogram comparison.
- `marked.parse` and `Prism.highlightElement` are foreign libraries. Blocks carry the text handed to them.
- The highlight class of a code block is always `language-python`, whatever the file. It is recorded as the constant `Transcript.CodeClass` and used by no function.
- Ordering.Sorted: `localeCompare` is an arbitrary strict total order on names. Two distinct names that `localeCompare` ranks as equal are not modelled.
- Text.ToLower: lower-cases only the ASCII letters. `toLowerCase` also maps other Unicode letters.
- Dict.Keys: insertion order is the only order modelled. JavaScript lists integer-like keys such as `"1"` first, in numeric order. Names that clash with `Object.prototype` members are not modelled either.
- FileTree.BuildLeafAt: assumes no input path is a proper prefix of another, as in a real directory listing. Without that, the code descends into a `File` object. `FileTree.Insert` models that case by keeping the file.
- FileTree.BuildLeafCount: counts files against distinct input paths, because a later duplicate overwrites an earlier one. A claim that the tree's depth equals the longest path's component count is not stated.
- Selection.Step: the outcome of `document.querySelector` for the unescaped selector is a field of the removal event. The CSS parsing that makes a path with a double quote throw, or reads a backslash as an escape, is not modelled.
- Preview.LanguageClass: the language table is a plain map. Looking up an extension named like an `Object.prototype` member, such as `constructor`, yields that member in JavaScript and not `plaintext`; this is not modelled.
- FileTree.Insert: a directory component named `__proto__` reaches the object's prototype in JavaScript instead of a child entry; this is not modelled.
- FolderStates.Toggle: a folder path equal to `__proto__` reads and writes the prototype of `folderStates` in JavaScript; this is not modelled.
- Compose.ApplyRequestOf: the body is modelled as the block's own path and code. In the page the code passes through a template literal inside an HTML attribute, so character references such as `&amp;` are decoded, backslash escapes such as `\n` become control characters, and `${...}` is evaluated before the call; the body then differs from the block.
- Server.Generate: the JSON body is a prompt that may be missing and a file map that may be missing. Non-string values are not modelled, for example a prompt of `0` or `false`, which Python also treats as falsy. A `fileContext` that is `null` or not an object is not modelled; the route would raise on it.
- Server.Apply: non-string `file_path` or `code` values are not modelled.
- Server.ReplyText: the exception text `str(e)` is taken as given.

## Findings

| source | as written | input that shows it | evidently intended | confidence | as-written member | corrected member |
|---|---|---|---|---|---|---|
| static/js/main.js:189-192 | the × handler finds the checkbox with a selector holding the path unescaped between double quotes | a selected path `a"b.py`: the selector is invalid, the handler throws after the delete, and the box stays ticked over a file no longer selected | the checkbox whose `data-path` is the path is cleared | medium, not executed | `Selection.RemoveMissKeepsTick` | `Selection.FixedStep` |
| static/js/main.js:33-34 | a new pick empties `fileContext` without calling `updateSelectedFiles` | select `a.py`, then pick another non-empty directory: the panel still lists `a.py` while nothing is selected | the panel is redrawn, empty, with the selection | medium, not executed | `Selection.NewDirectoryLeavesPanel` | `Selection.FixedStep` |
