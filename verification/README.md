# TextEditor core in Dafny

A model of the logic of a small Electron text editor. It has two processes.

- The **host** process (`src/main.ts`) sniffs the encoding of every file it opens. It reads the byte-order mark and runs a UTF-8 structure check, maps the file extension to a language tag, and answers the view's save and reload requests.
- The **view** process (`src/renderer.ts`, with the hand-written twin `src/renderer.js`) keeps an editing session. The session is the current path, the current encoding and a dirty flag. It changes on *New*, on a file opened by the host, on content edits, and on the replies to *Save* and *Save As*. The view also shows a window title and a status-bar language label.

Modules:

- `Wrappers` (wrappers.dfy): the `Option` type, used for nullable values.
- `Paths` (paths.dfy): `basename` and `extname` from Node's `path` module, simplified (see Left out).
- `Utf8Structure` (utf8.dfy): the validator `isValidUtf8`.
  - `WellFormed` is the grammar the validator decides: empty, or one group followed by a well-formed rest. A group is 1–4 bytes matching the bit patterns of section 3 of RFC 3629.
  - The value ranges of that section are deliberately not checked. Overlong forms, surrogates and code points above U+10FFFF all pass.
  - `IsValidUtf8` is the source's `while` loop. It is proved to return exactly `WellFormed(buffer)`.
- `Host` (host.dfy): `detectEncoding`, `getLanguageFromExtension`, `readFileWithEncoding`, and the replies of the `save-file`, `save-file-dialog` and `reload-file` handlers.
  - File reads and writes, and the iconv-lite codec, are inputs: `ReadOutcome`, `WriteOutcome`, and a `decode` function parameter.
- `Renderer` (renderer.dfy): the session.
  - The pure transitions (`AfterNewFile`, `AfterLoadFile`, `AfterContentChange`, `AfterSave`, `AfterSaveAs`), the title, the display-name table, and traces of events (`Run`).
  - The class `EditorSession` has the source's three variables as fields, plus the last title written. Its methods update the fields in place. Each is proved to move the state as the matching transition does and to keep the title in step with the state.
- `RendererJs` (renderer_js.dfy): models `src/renderer.js`, with its actions, title and label table, each proved equal to the TypeScript model.

The host's replies and the user's dialog choices are parameters of the view's methods. JavaScript truthiness is modelled where the code relies on it: a path of `null` or `""` counts as no file.

## Model

| member | source | states |
|---|---|---|
| `Utf8Structure.IsValidUtf8` | src/main.ts:156-176 | The scan returns true exactly when the buffer is a sequence of well-formed 1–4-byte groups; it stays in bounds and terminates |
| `Utf8Structure.LeadIsUnambiguous` | src/main.ts:160-171 | A byte matches at most one lead pattern, and no lead byte is a continuation byte, so the order of the tests does not matter |
| `Utf8Structure.WellFormedAfterGroup` | src/main.ts:161-170 | After a complete group at the front, the verdict on the buffer is the verdict on the rest (the scan's step) |
| `Utf8Structure.BrokenFirstGroup` | src/main.ts:163-172 | A buffer is rejected when its first byte is no lead byte, or the group that byte announces is cut short or holds a non-continuation byte |
| `Utf8Structure.Accepted` | src/main.ts:160-170 | A complete group at position i: the rest of the buffer from i decides as the rest from i + n does |
| `Utf8Structure.Rejected` | src/main.ts:163-172 | Each `return false` of the scan: the rest of the buffer from position i is not well-formed |
| `Utf8Structure.AsciiIsWellFormed` | src/main.ts:157-161 | The empty buffer and every buffer of bytes below 0x80 pass |
| `Utf8Structure.WellFormedPrefix` | src/main.ts:158-174 | Once a well-formed prefix is scanned, the verdict on the whole buffer is the verdict on what follows it |
| `Utf8Structure.TruncatedTailRejected` | src/main.ts:163-169 | A buffer ending with a lead byte whose group does not fit is rejected, whatever precedes it |
| `Utf8Structure.LoneTrailingE2Rejected` | src/main.ts:166 | Any buffer ending in a lone 0xE2 is rejected |
| `Utf8Structure.LaxnessExamples` | src/main.ts:160-170 | Overlong C0 80, C1 BF and E0 80 80, surrogate ED A0 80, and F4 90 80 80 and F7 BF BF BF above U+10FFFF all pass |
| `Utf8Structure.BadBytesRejected` | src/main.ts:163-172 | A leading continuation byte (80, BF 41), a lead F8 or FF, and C3 28 (no continuation after the lead) fail |
| `Host.DetectEncoding` | src/main.ts:136-154 | utf-16be exactly for a leading FE FF; utf-16le exactly for a leading FF FE; utf-8 for an EF BB BF mark and for every other buffer; always one of the three names |
| `Host.BomDecides` | src/main.ts:138-146 | A byte-order mark decides the encoding whatever bytes follow it |
| `Host.FirstTwoBytesDecide` | src/main.ts:149-153 | Buffers of length at least 2 that agree on their first two bytes get the same encoding, so the UTF-8 check's verdict never shows |
| `Host.MalformedIsStillUtf8` | src/main.ts:149-153 | A malformed buffer without a mark (48 E9 6C) and the well-formed "Hi" are both reported as utf-8 |
| `Host.GetLanguageFromExtension` | src/main.ts:178-207 | The result is always one of the 17 tags; it is the table entry of the lowercased extension, and "plaintext" exactly when that is missing or ".txt" |
| `Host.LanguageIgnoresCase` | src/main.ts:206 | Lowering the extension first does not change the language |
| `Host.LanguageExamples` | src/main.ts:179-206 | ".TS" gives typescript and ".Md" gives markdown; the empty extension and ".rs" give plaintext |
| `Host.ReadFileWithEncoding` | src/main.ts:123-134 | The record keeps the path. Its encoding is the sniffed one, one of the three names. The content is decoded with that same encoding. The language is the one `GetLanguageFromExtension` gives for the path's extension |
| `Host.ReloadFile` | src/main.ts:245-252 | The reply is null exactly when reading the file fails; otherwise it is exactly the record `ReadFileWithEncoding` builds from the bytes read, with the requested path and a known encoding |
| `Host.SaveFile` | src/main.ts:214-222 | Success exactly when the write succeeds; otherwise the write's error message is returned |
| `Host.DialogDefaultPath` | src/main.ts:226 | The dialog starts at the suggested name, or at "untitled.txt" when that is empty; never at an empty path |
| `Host.SaveFileDialog` | src/main.ts:224-243 | Saved, with the chosen non-empty path, exactly when a path was picked and written. A dismissed dialog, or one without a path, is a cancellation and never an error. A failed write returns its message |
| `Renderer.AfterNewFile` | src/renderer.ts:90-106 | New: no path, encoding utf-8, clean |
| `Renderer.AfterLoadFile` | src/renderer.ts:112-116 | Opening adopts the file's path and encoding and is clean |
| `Renderer.AfterContentChange` | src/renderer.ts:65-70 | An edit makes the session dirty and keeps path and encoding; on a dirty session it changes nothing (idempotent) |
| `Renderer.AfterSaveAs` | src/renderer.ts:153-171 | A save adopts the returned path and clears the dirty flag. A cancelled or failed save changes nothing. The encoding never changes |
| `Renderer.AfterSave` | src/renderer.ts:131-151 | Without a path it is exactly save-as. With a path, success clears the dirty flag and failure changes nothing. Path and encoding are kept |
| `Renderer.SaveRequestFor` | src/renderer.ts:137-142 | `save-file` is sent with the current path, the editor text and the current encoding |
| `Renderer.SaveAsRequestFor` | src/renderer.ts:154-161 | `save-file-dialog` is sent with the editor text, the current encoding and the suggested name |
| `Renderer.FileLabel` | src/renderer.ts:174 | The title's file name is the basename of the path, or "Untitled" without one; it has no separator |
| `Renderer.SuggestedName` | src/renderer.ts:155 | The suggested name is the basename of the path, or "untitled.txt" without one; it has no separator |
| `Renderer.Title` | src/renderer.ts:173-176 | A dirty title is "* ", the file label and " - Text Editor"; a clean one is the label and " - Text Editor" (lengths and pieces stated separately) |
| `Renderer.TitleMarksDirty` | src/renderer.ts:175 | The title starts with "* " exactly when the session is dirty, or the file's name itself is "*" or starts with "* " |
| `Renderer.TitleTellsDirtyApart` | src/renderer.ts:175 | Two sessions on the same file that differ in the dirty flag show different titles |
| `Renderer.GetLanguageDisplayName` | src/renderer.ts:198-219 | A tag in the table gets its non-empty label; any other tag is echoed back; the label is empty only for the empty tag |
| `Renderer.EveryLanguageHasLabel` | src/renderer.ts:199-218 | Every tag the host's extension table can produce has its own label, so the echo fallback is never used for a file the host opened |
| `Renderer.DisplayNameExamples` | src/renderer.ts:218 | ".TS" is shown as "TypeScript", "csharp" as "C#", and the unknown "rust" is echoed |
| `Renderer.EncodingStaysKnown` | src/renderer.ts:90-171 | Over any sequence of actions, the encoding stays one of the host's three names, provided files come from the host |
| `Renderer.EncodingKeptByEditsAndSaves` | src/renderer.ts:131-171 | Edits and saves of any outcome never change the encoding |
| `Renderer.SaveUsesDetectedEncoding` | src/renderer.ts:113-161 | A file opened through the host and then edited and saved any number of times keeps the encoding sniffed when it was read, so both the `save-file` and the `save-file-dialog` request carry it |
| `Renderer.SaveAsThroughHost` | src/renderer.ts:163-170 | Through the host's dialog handler, every reply other than a save leaves the session as it was: a dismissed dialog, a dialog without a path, and a failed write; a picked path that was written becomes the session's path, clean |
| `Renderer.SilentStepChangesNothing` | src/renderer.ts:65-171 | Every action that does not call updateTitle (an edit of a dirty session, a failed or cancelled save) leaves the session unchanged, so the title stays current |
| `Renderer.EditorSession.constructor` | src/renderer.ts:29-31 | The session starts with no path, utf-8, clean, and the page's own title |
| `Renderer.EditorSession.UpdateTitle` | src/renderer.ts:173-176 | The title written shows the current state |
| `Renderer.EditorSession.NewFile` | src/renderer.ts:90-106 | The fields take the New state and the title is rewritten |
| `Renderer.EditorSession.LoadFile` | src/renderer.ts:112-129 | The fields take the opened file's path and encoding, clean, and the title is rewritten |
| `Renderer.EditorSession.OnContentChanged` | src/renderer.ts:65-70 | The session becomes dirty. On a clean session the title is rewritten to show the "* " mark; on an already dirty session neither the state nor the title changes |
| `Renderer.EditorSession.SaveFileAs` | src/renderer.ts:153-171 | The dialog request sent is the current encoding with the suggested name, and the fields move as save-as does. A save rewrites the title; a cancelled or failed one leaves it as it was |
| `Renderer.EditorSession.SaveFile` | src/renderer.ts:131-151 | `save-file` is sent when there is a path, otherwise the save-as request; the fields move as save does. The title is rewritten exactly when the reply that applies is a success, and is otherwise left as it was |
| `Renderer.EditorSession.Handle` | src/renderer.ts:80-88 | Each menu command, opened-file or content-change event runs its action and moves the state by one step of the trace model. The title is rewritten exactly when the action calls updateTitle (`WritesTitle`) and is otherwise left as it was |
| `RendererJs.AfterNewFile` | src/renderer.js:97-109 | The JavaScript newFile: no path, utf-8, clean; proved equal to `Renderer.AfterNewFile` by `NewFileAgrees` |
| `RendererJs.AfterLoadFile` | src/renderer.js:115-132 | The JavaScript loadFile adopts the file's path and encoding, clean; proved equal to `Renderer.AfterLoadFile` by `LoadFileAgrees` |
| `RendererJs.AfterContentChange` | src/renderer.js:72-77 | The JavaScript change listener sets the dirty flag and keeps path and encoding; on a dirty session nothing changes. Proved equal to `Renderer.AfterContentChange` by `ContentChangeAgrees` |
| `RendererJs.AfterSaveFileAs` | src/renderer.js:156-174 | The JavaScript saveFileAs: success adopts the path, clean; any other reply changes nothing; the encoding is kept. Proved equal to `Renderer.AfterSaveAs` by `SaveFileAsAgrees` |
| `RendererJs.AfterSaveFile` | src/renderer.js:134-154 | The JavaScript saveFile delegates to saveFileAs without a path; with one, success clears the dirty flag and path and encoding are kept. Proved equal to `Renderer.AfterSave` by `SaveFileAgrees` |
| `RendererJs.Title` | src/renderer.js:176-179 | The concatenated title ends in " - Text Editor", starts with "* " when dirty, and is "Untitled - Text Editor" for a clean session without a file; proved equal to `Renderer.Title` by `TitleAgrees` |
| `RendererJs.GetLanguageDisplayName` | src/renderer.js:201-222 | A tag in the table gets its label, any other is echoed; proved equal to `Renderer.GetLanguageDisplayName` by `DisplayNamesAgree` |
| `RendererJs.NewFileAgrees` | src/renderer.js:97-109 | The JavaScript newFile resets the session exactly as the TypeScript one |
| `RendererJs.LoadFileAgrees` | src/renderer.js:115-132 | The JavaScript loadFile moves the session exactly as the TypeScript one |
| `RendererJs.ContentChangeAgrees` | src/renderer.js:72-77 | The JavaScript change handler agrees with the TypeScript one |
| `RendererJs.SaveFileAgrees` | src/renderer.js:134-154 | The JavaScript saveFile, including its delegation to saveFileAs, agrees with the TypeScript one |
| `RendererJs.SaveFileAsAgrees` | src/renderer.js:156-174 | The JavaScript saveFileAs agrees with the TypeScript one on every reply |
| `RendererJs.TitleAgrees` | src/renderer.js:176-179 | The concatenated JavaScript title equals the TypeScript template title |
| `RendererJs.DisplayNamesAgree` | src/renderer.js:201-222 | The JavaScript label table equals the TypeScript one entry for entry, and so does the lookup with its echo fallback |

## Left out

- Window, menu and application lifecycle (`createWindow`, `createMenu`, the `app.*` handlers): UI plumbing with no state of the session.
- `openFile` and the `open-file-dialog` handler (native dialog). What they deliver is modelled: `ReadFileWithEncoding` feeds the `FileOpened` event. An exception while reading there is not modelled.
- iconv-lite (`iconv.decode`, `iconv.encode`): a foreign library. Decoding is a function parameter. Encoding, together with `fs.writeFileSync`, is a `WriteOutcome` input. No encode/decode round trip is claimed.
- `fs.readFileSync`: its result or its exception is a `ReadOutcome` input.
- IPC transport: requests are returned by the view's methods and replies are their parameters.
- The `await` between a save request and its reply is taken as atomic. A content change that lands while a save is pending is not modelled.
- The code-editing widget: `setValue`, `setModelLanguage`, worker URLs and `updatePosition`. Status-bar texts (`updateStatus`, `updateEncoding`, `updateLanguage`) are DOM output and are not modelled either.
- Whether the widget fires its content-change event on `setValue` depends on the widget. The content change is therefore a separate event (`ContentChanged`), so New and Open end clean in the model.
- `newFile` in the TypeScript file tests `isDirty` but does nothing in that branch (a to-do comment). No prompt is modelled.
- Recent-files list, preferences and format-mapping storage, and opening a file given at launch: no code for them exists in `src/main.ts`, `src/renderer.ts` or `src/renderer.js`, so they are not modelled.
- Paths.Basename: treats both '/' and '\' as separators, as Node's win32 flavour does, and does not strip trailing separators. Drive letters need no handling: the dialogs return absolute paths, so a drive letter (`C:\`) is always followed by a separator and never reaches the last component. On macOS and Linux, Node's `path` splits only at '/'. A '\' inside a file name there (`a\b.txt`) is split by the model but not by the source, so the model's title and suggested name show `b.txt` where the source shows `a\b.txt`.
- Paths.Extname: follows Node's rules for the last dot of the basename: no dot, a leading dot (".bashrc") and ".." all give "". It inherits the simplifications of `Basename`.
- Host.GetLanguageFromExtension: lowercases only ASCII 'A'–'Z'. For this table the result is the same as JavaScript's full `toLowerCase`. The only non-ASCII characters that lowercase to ASCII letters are the Kelvin sign ('k') and dotted capital I ("i" plus a combining dot), and no key contains 'k' or 'i'.
- Host.GetLanguageFromExtension: the object-literal lookup in the source would also find inherited properties such as "constructor". The model's table does not. Keys from `extname` are empty or start with '.', so they never reach those properties.
- Renderer.GetLanguageDisplayName: `names[lang] || lang` in the source would return an inherited property (a function) for a tag such as "constructor" or "toString"; the model echoes such a tag instead. Tags the host produces are all in the table (`EveryLanguageHasLabel`), so this never arises for a file the host opened. The same holds for `RendererJs.GetLanguageDisplayName`.
- The call of `isValidUtf8` inside `detectEncoding`: `Host.DetectEncoding` is a function and consults the grammar `WellFormed` directly rather than running the loop. The loop is proved to compute that grammar, and neither verdict changes the result.
