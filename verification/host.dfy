/** The host (main) process of the editor, src/main.ts: the encoding sniffer
    run on every opened file, the extension-to-language table, and the result
    shapes of the file handlers the view process calls.  Reading and writing
    files and the iconv-lite codec are not modelled: what they produce comes
    in as parameters (`ReadOutcome`, `WriteOutcome`, `decode`). */
module Host {
  import opened Wrappers
  import opened Utf8Structure
  import Paths

  // ---------------------------------------------------------------- encodings

  datatype EncodingTag = Utf8 | Utf16Be | Utf16Le {
    /** The name iconv-lite is given and the view process stores. */
    function Name(): string {
      match this
      case Utf8 => "utf-8"
      case Utf16Be => "utf-16be"
      case Utf16Le => "utf-16le"
    }
  }

  const EncodingNames: set<string> := {"utf-8", "utf-16be", "utf-16le"}

  predicate HasUtf8Bom(buffer: seq<bv8>) {
    |buffer| >= 3 && buffer[0] == 0xEF && buffer[1] == 0xBB && buffer[2] == 0xBF
  }

  predicate HasUtf16BeBom(buffer: seq<bv8>) {
    |buffer| >= 2 && buffer[0] == 0xFE && buffer[1] == 0xFF
  }

  predicate HasUtf16LeBom(buffer: seq<bv8>) {
    |buffer| >= 2 && buffer[0] == 0xFF && buffer[1] == 0xFE
  }

  /** The byte-order-mark sniffer.  Only a UTF-16 mark gives anything but
      UTF-8: the structure check is run on the rest, but either verdict gives
      "utf-8" (no legacy code page is ever guessed). */
  function DetectEncoding(buffer: seq<bv8>): (tag: EncodingTag)
    ensures HasUtf8Bom(buffer) ==> tag == Utf8
    ensures tag == Utf16Be <==> HasUtf16BeBom(buffer)
    ensures tag == Utf16Le <==> HasUtf16LeBom(buffer)
    ensures tag == Utf8 <==> !HasUtf16BeBom(buffer) && !HasUtf16LeBom(buffer)
    ensures tag.Name() in EncodingNames
  {
    if HasUtf8Bom(buffer) then Utf8
    else if HasUtf16BeBom(buffer) then Utf16Be
    else if HasUtf16LeBom(buffer) then Utf16Le
    else if WellFormed(buffer) then Utf8
    else Utf8
  }

  /** A byte-order mark decides the encoding whatever follows it. */
  lemma BomDecides(rest: seq<bv8>)
    ensures DetectEncoding([0xEF, 0xBB, 0xBF] + rest) == Utf8
    ensures DetectEncoding([0xFE, 0xFF] + rest) == Utf16Be
    ensures DetectEncoding([0xFF, 0xFE] + rest) == Utf16Le
  {
    assert HasUtf16BeBom([0xFE, 0xFF] + rest);
    assert HasUtf16LeBom([0xFF, 0xFE] + rest);
  }

  /** The first two bytes alone decide: the verdict of the UTF-8 structure
      check on the rest of the buffer never shows in the result. */
  lemma FirstTwoBytesDecide(a: seq<bv8>, b: seq<bv8>)
    requires |a| >= 2 && |b| >= 2 && a[0] == b[0] && a[1] == b[1]
    ensures DetectEncoding(a) == DetectEncoding(b)
  {
  }

  /** A malformed buffer without a mark is still reported as UTF-8. */
  lemma MalformedIsStillUtf8()
    ensures !WellFormed([0x48, 0xE9, 0x6C]) && DetectEncoding([0x48, 0xE9, 0x6C]) == Utf8
    ensures WellFormed([0x48, 0x69]) && DetectEncoding([0x48, 0x69]) == Utf8
  {
    assert !IsContinuation([0x48, 0xE9, 0x6C][2]);
    assert [0x48, 0xE9, 0x6C][1..] == [0xE9, 0x6C];
    Rejected([0x48, 0xE9, 0x6C], 1, 3);
    Accepted([0x48, 0xE9, 0x6C], 0, 1);
    AsciiIsWellFormed([0x48, 0x69]);
  }

  // ---------------------------------------------------------------- languages

  /** The extension table of getLanguageFromExtension: 25 extensions. */
  const ExtensionLanguages: map<string, string> := map[
    ".html" := "html", ".htm" := "html",
    ".xml" := "xml", ".xaml" := "xml",
    ".json" := "json",
    ".js" := "javascript", ".jsx" := "javascript", ".mjs" := "javascript",
    ".ts" := "typescript", ".tsx" := "typescript",
    ".cs" := "csharp",
    ".css" := "css", ".scss" := "scss", ".less" := "less",
    ".java" := "java",
    ".sql" := "sql",
    ".c" := "c", ".h" := "c",
    ".cpp" := "cpp", ".hpp" := "cpp",
    ".py" := "python",
    ".md" := "markdown",
    ".yaml" := "yaml", ".yml" := "yaml",
    ".txt" := "plaintext"
  ]

  /** Every tag getLanguageFromExtension can produce. */
  const LanguageTags: set<string> := {
    "plaintext", "html", "xml", "json", "javascript", "typescript", "csharp",
    "css", "scss", "less", "java", "sql", "c", "cpp", "python", "markdown", "yaml"
  }

  /** `toLowerCase` on the characters that matter here (see README). */
  function LowerChar(c: char): char {
    if 'A' <= c <= 'Z' then (c as int - 'A' as int + 'a' as int) as char else c
  }

  function ToLower(s: string): string {
    seq(|s|, i requires 0 <= i < |s| => LowerChar(s[i]))
  }

  /** Case-insensitive lookup with "plaintext" as the fallback (the source's
      `map[ext.toLowerCase()] || 'plaintext'`). */
  function GetLanguageFromExtension(ext: string): (lang: string)
    ensures lang in LanguageTags
    ensures lang != "plaintext" ==> ToLower(ext) in ExtensionLanguages && ExtensionLanguages[ToLower(ext)] == lang
    ensures lang == "plaintext" <==> ToLower(ext) !in ExtensionLanguages || ToLower(ext) == ".txt"
  {
    var key := ToLower(ext);
    if key in ExtensionLanguages && ExtensionLanguages[key] != "" then ExtensionLanguages[key] else "plaintext"
  }

  /** The lookup ignores case: lowering the extension first changes nothing. */
  lemma LanguageIgnoresCase(ext: string)
    ensures GetLanguageFromExtension(ToLower(ext)) == GetLanguageFromExtension(ext)
  {
    assert ToLower(ToLower(ext)) == ToLower(ext);
  }

  lemma LanguageExamples()
    ensures GetLanguageFromExtension(".TS") == "typescript"
    ensures GetLanguageFromExtension(".Md") == "markdown"
    ensures GetLanguageFromExtension("") == "plaintext"
    ensures GetLanguageFromExtension(".rs") == "plaintext"
  {
    assert ToLower(".TS") == ".ts";
    assert ToLower(".Md") == ".md";
    assert ToLower(".rs") == ".rs";
  }

  // ---------------------------------------------------------------- file handlers

  /** What the host sends to the view when a file is opened or reloaded. */
  datatype FileData = FileData(filePath: string, content: string, encoding: string, language: string)

  /** `fs.readFileSync`: the bytes of the file, or the error it throws. */
  datatype ReadOutcome = ReadBytes(bytes: seq<bv8>) | ReadFailed

  /** `iconv.encode` followed by `fs.writeFileSync`: done, or the message of
      the error one of them throws. */
  datatype WriteOutcome = Written | WriteFailed(message: string)

  /** readFileWithEncoding: sniff the encoding, decode with it (`decode` stands
      for iconv.decode) and classify the extension of the path. */
  function ReadFileWithEncoding(filePath: string, bytes: seq<bv8>, decode: (seq<bv8>, string) -> string): (data: FileData)
    ensures data.filePath == filePath
    ensures data.encoding == DetectEncoding(bytes).Name() && data.encoding in EncodingNames
    ensures data.content == decode(bytes, data.encoding)
    ensures data.language == GetLanguageFromExtension(Paths.Extname(filePath)) && data.language in LanguageTags
  {
    var encoding := DetectEncoding(bytes).Name();
    FileData(filePath, decode(bytes, encoding), encoding, GetLanguageFromExtension(Paths.Extname(filePath)))
  }

  /** The `reload-file` handler: the file's data, or null when reading throws. */
  function ReloadFile(filePath: string, read: ReadOutcome, decode: (seq<bv8>, string) -> string): (reply: Option<FileData>)
    ensures reply.None? <==> read.ReadFailed?
    ensures reply.Some? ==> reply.value.filePath == filePath && reply.value.encoding in EncodingNames
    ensures read.ReadBytes? ==> reply == Some(ReadFileWithEncoding(filePath, read.bytes, decode))
  {
    match read
    case ReadFailed => None
    case ReadBytes(bytes) => Some(ReadFileWithEncoding(filePath, bytes, decode))
  }

  /** The two save requests of the view process: `save-file` to a known path
      and `save-file-dialog`, which lets the user pick one. */
  datatype SaveRequest =
    | SaveFileRequest(filePath: string, content: string, encoding: string)
    | SaveFileDialogRequest(content: string, encoding: string, suggestedName: string)

  /** Reply to `save-file`: `{success: true}` or `{success: false, error}`. */
  datatype SaveReply = Saved | SaveFailed(error: string)

  /** Reply to `save-file-dialog`: `{success: true, filePath}`,
      `{success: false, error}` or `{success: false, canceled: true}`. */
  datatype SaveAsReply = SavedAs(filePath: string) | SaveAsFailed(error: string) | SaveAsCanceled

  /** What the native save dialog returns. */
  datatype SaveDialogResult = SaveDialogResult(canceled: bool, filePath: Option<string>)

  /** The `save-file` handler. */
  function SaveFile(write: WriteOutcome): (reply: SaveReply)
    ensures reply.Saved? <==> write.Written?
    ensures reply.SaveFailed? ==> write == WriteFailed(reply.error)
  {
    match write
    case Written => Saved
    case WriteFailed(message) => SaveFailed(message)
  }

  /** The path the save dialog starts from: `suggestedName || 'untitled.txt'`. */
  function DialogDefaultPath(suggestedName: string): (path: string)
    ensures path != ""
    ensures suggestedName != "" ==> path == suggestedName
    ensures suggestedName == "" ==> path == "untitled.txt"
  {
    if suggestedName != "" then suggestedName else "untitled.txt"
  }

  /** The `save-file-dialog` handler: a write is attempted only when the user
      picked a (non-empty) path; anything else is a cancellation, never an
      error. */
  function SaveFileDialog(dialog: SaveDialogResult, write: WriteOutcome): (reply: SaveAsReply)
    ensures reply.SavedAs? <==> !dialog.canceled && dialog.filePath.Some? && dialog.filePath.value != "" && write.Written?
    ensures reply.SavedAs? ==> dialog.filePath == Some(reply.filePath) && reply.filePath != ""
    ensures reply.SaveAsCanceled? <==> dialog.canceled || dialog.filePath.None? || dialog.filePath.value == ""
    ensures reply.SaveAsFailed? ==> write == WriteFailed(reply.error)
  {
    if !dialog.canceled && dialog.filePath.Some? && dialog.filePath.value != "" then
      match write
      case Written => SavedAs(dialog.filePath.value)
      case WriteFailed(message) => SaveAsFailed(message)
    else
      SaveAsCanceled
  }
}
