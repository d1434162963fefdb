/** Models src/renderer.js, the hand-written JavaScript twin of
    src/renderer.ts: its session actions, title and language labels, each
    proved to agree with the model of the TypeScript file in module
    Renderer. */
module RendererJs {
  import opened Wrappers
  import opened Host
  import Paths
  import R = Renderer

  /** newFile (no dirty test at all in this version). */
  function AfterNewFile(s: R.SessionState): (t: R.SessionState)
    ensures t.filePath == None && t.encoding == "utf-8" && !t.dirty
  {
    R.SessionState(None, "utf-8", false)
  }

  /** loadFile: adopt the opened file's path and encoding, clean. */
  function AfterLoadFile(s: R.SessionState, data: FileData): (t: R.SessionState)
    ensures t.filePath == Some(data.filePath) && t.encoding == data.encoding && !t.dirty
  {
    R.SessionState(Some(data.filePath), data.encoding, false)
  }

  /** The change listener: set the flag when it is not set yet. */
  function AfterContentChange(s: R.SessionState): (t: R.SessionState)
    ensures t.dirty && t.filePath == s.filePath && t.encoding == s.encoding
    ensures s.dirty ==> t == s
  {
    if !s.dirty then R.SessionState(s.filePath, s.encoding, true) else s
  }

  /** saveFileAs after the reply: only a success moves the session. */
  function AfterSaveFileAs(s: R.SessionState, reply: SaveAsReply): (t: R.SessionState)
    ensures t.encoding == s.encoding
    ensures reply.SavedAs? ==> t.filePath == Some(reply.filePath) && !t.dirty
    ensures !reply.SavedAs? ==> t == s
  {
    match reply
    case SavedAs(filePath) => R.SessionState(Some(filePath), s.encoding, false)
    case SaveAsFailed(_) => s
    case SaveAsCanceled => s
  }

  /** saveFile: `if (!currentFilePath)` delegates to saveFileAs. */
  function AfterSaveFile(s: R.SessionState, saveReply: SaveReply, dialogReply: SaveAsReply): (t: R.SessionState)
    ensures s.filePath == None || s.filePath == Some("") ==> t == AfterSaveFileAs(s, dialogReply)
    ensures s.filePath != None && s.filePath != Some("") ==>
              t.filePath == s.filePath && t.encoding == s.encoding && t.dirty == (s.dirty && !saveReply.Saved?)
  {
    if s.filePath == None || s.filePath == Some("") then AfterSaveFileAs(s, dialogReply)
    else match saveReply
      case Saved => R.SessionState(s.filePath, s.encoding, false)
      case SaveFailed(_) => s
  }

  /** updateTitle's string concatenation. */
  function Title(s: R.SessionState): (title: string)
    ensures |title| >= 14 && title[|title| - 14..] == " - Text Editor"
    ensures s.dirty ==> title[..2] == "* "
    ensures !s.dirty && (s.filePath == None || s.filePath == Some("")) ==> title == "Untitled - Text Editor"
  {
    var fileName := if s.filePath == None || s.filePath == Some("") then "Untitled"
                    else Paths.Basename(s.filePath.value);
    (if s.dirty then "* " else "") + fileName + " - Text Editor"
  }

  const DisplayNames: map<string, string> := map[
    "plaintext" := "Plain Text", "html" := "HTML", "xml" := "XML", "json" := "JSON",
    "javascript" := "JavaScript", "typescript" := "TypeScript", "csharp" := "C#",
    "css" := "CSS", "scss" := "SCSS", "less" := "Less", "java" := "Java", "sql" := "SQL",
    "c" := "C", "cpp" := "C++", "python" := "Python", "markdown" := "Markdown", "yaml" := "YAML"
  ]

  /** `names[lang] || lang`. */
  function GetLanguageDisplayName(lang: string): (shown: string)
    ensures lang in DisplayNames ==> shown == DisplayNames[lang]
    ensures lang !in DisplayNames ==> shown == lang
  {
    if lang in DisplayNames && DisplayNames[lang] != "" then DisplayNames[lang] else lang
  }

  lemma NewFileAgrees(s: R.SessionState)
    ensures AfterNewFile(s) == R.AfterNewFile(s)
  {
  }

  lemma LoadFileAgrees(s: R.SessionState, data: FileData)
    ensures AfterLoadFile(s, data) == R.AfterLoadFile(s, data)
  {
  }

  lemma ContentChangeAgrees(s: R.SessionState)
    ensures AfterContentChange(s) == R.AfterContentChange(s)
  {
  }

  lemma SaveFileAsAgrees(s: R.SessionState, reply: SaveAsReply)
    ensures AfterSaveFileAs(s, reply) == R.AfterSaveAs(s, reply)
  {
  }

  lemma SaveFileAgrees(s: R.SessionState, saveReply: SaveReply, dialogReply: SaveAsReply)
    ensures AfterSaveFile(s, saveReply, dialogReply) == R.AfterSave(s, saveReply, dialogReply)
  {
  }

  lemma TitleAgrees(s: R.SessionState)
    ensures Title(s) == R.Title(s)
  {
  }

  lemma DisplayNamesAgree(lang: string)
    ensures DisplayNames == R.DisplayNames
    ensures GetLanguageDisplayName(lang) == R.GetLanguageDisplayName(lang)
  {
  }
}
