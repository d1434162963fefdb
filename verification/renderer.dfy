/** The view (renderer) process of the editor, src/renderer.ts: the editing
    session (`currentFilePath`, `currentEncoding`, `isDirty`), the actions that
    change it, the window title and the status-bar language label.  Replies of
    the host arrive as parameters; the code-editing widget is not modelled,
    except that its text is passed to the save actions. */
module Renderer {
  import opened Wrappers
  import opened Host
  import Paths

  // ---------------------------------------------------------------- session state

  /** The three module-level variables of the view process. */
  datatype SessionState = SessionState(filePath: Option<string>, encoding: string, dirty: bool)

  /** JavaScript truthiness of `currentFilePath`: null and "" both count as
      "no file". */
  predicate HasPath(s: SessionState) {
    s.filePath.Some? && s.filePath.value != ""
  }

  /** State at start-up and after "New". */
  const Untitled := SessionState(None, "utf-8", false)

  /** newFile: forget the file, back to UTF-8, clean.  (The source tests
      `isDirty` first, but the branch is empty: no prompt is shown.) */
  function AfterNewFile(s: SessionState): (t: SessionState)
    ensures t.filePath == None && t.encoding == "utf-8" && !t.dirty
    ensures !HasPath(t)
  {
    Untitled
  }

  /** loadFile(data): adopt the path and encoding of the opened file, clean. */
  function AfterLoadFile(s: SessionState, data: FileData): (t: SessionState)
    ensures t.filePath == Some(data.filePath) && t.encoding == data.encoding && !t.dirty
    ensures HasPath(t) <==> data.filePath != ""
  {
    SessionState(Some(data.filePath), data.encoding, false)
  }

  /** The content-change handler: mark the session dirty, once. */
  function AfterContentChange(s: SessionState): (t: SessionState)
    ensures t.dirty && t.filePath == s.filePath && t.encoding == s.encoding
    ensures s.dirty ==> t == s
  {
    if !s.dirty then s.(dirty := true) else s
  }

  /** saveFileAs after the host's reply: a save adopts the chosen path and
      clears the dirty flag; a cancellation or an error changes nothing.
      Saving never changes the encoding. */
  function AfterSaveAs(s: SessionState, reply: SaveAsReply): (t: SessionState)
    ensures t.encoding == s.encoding
    ensures t.dirty == (s.dirty && !reply.SavedAs?)
    ensures reply.SavedAs? ==> t.filePath == Some(reply.filePath)
    ensures !reply.SavedAs? ==> t == s
  {
    if reply.SavedAs? then s.(filePath := Some(reply.filePath), dirty := false) else s
  }

  /** saveFile after the host's reply.  Without a path it is saveFileAs (the
      dialog's reply decides); with one, success clears the dirty flag and an
      error changes nothing. */
  function AfterSave(s: SessionState, saveReply: SaveReply, dialogReply: SaveAsReply): (t: SessionState)
    ensures !HasPath(s) ==> t == AfterSaveAs(s, dialogReply)
    ensures HasPath(s) ==> t.filePath == s.filePath && t.dirty == (s.dirty && !saveReply.Saved?)
    ensures HasPath(s) && saveReply.SaveFailed? ==> t == s
    ensures t.encoding == s.encoding
  {
    if !HasPath(s) then AfterSaveAs(s, dialogReply)
    else if saveReply.Saved? then s.(dirty := false)
    else s
  }

  /** The request saveFile sends when the session has a path. */
  function SaveRequestFor(s: SessionState, content: string): (request: SaveRequest)
    requires HasPath(s)
    ensures request.SaveFileRequest? && request.content == content
    ensures Some(request.filePath) == s.filePath && request.encoding == s.encoding
  {
    SaveFileRequest(s.filePath.value, content, s.encoding)
  }

  /** The request saveFileAs sends: the current encoding and a suggested name. */
  function SaveAsRequestFor(s: SessionState, content: string): (request: SaveRequest)
    ensures request.SaveFileDialogRequest? && request.content == content && request.encoding == s.encoding
    ensures request.suggestedName == SuggestedName(s)
  {
    SaveFileDialogRequest(content, s.encoding, SuggestedName(s))
  }

  // ---------------------------------------------------------------- title and labels

  /** The name shown for the file: its basename, or "Untitled". */
  function FileLabel(s: SessionState): (shown: string)
    ensures HasPath(s) ==> shown == Paths.Basename(s.filePath.value)
    ensures !HasPath(s) ==> shown == "Untitled"
    ensures forall i :: 0 <= i < |shown| ==> !Paths.IsSeparator(shown[i])
  {
    if HasPath(s) then Paths.Basename(s.filePath.value) else "Untitled"
  }

  /** The name the save dialog proposes: the basename of the current file,
      or "untitled.txt". */
  function SuggestedName(s: SessionState): (name: string)
    ensures HasPath(s) ==> name == Paths.Basename(s.filePath.value)
    ensures !HasPath(s) ==> name == "untitled.txt"
    ensures forall i :: 0 <= i < |name| ==> !Paths.IsSeparator(name[i])
  {
    if HasPath(s) then Paths.Basename(s.filePath.value) else "untitled.txt"
  }

  const TitleSuffix := " - Text Editor"

  /** The window title: "* " while dirty, the file label, " - Text Editor". */
  function Title(s: SessionState): (title: string)
    ensures |title| == (if s.dirty then 2 else 0) + |FileLabel(s)| + |TitleSuffix|
    ensures title[|title| - |TitleSuffix|..] == TitleSuffix
    ensures s.dirty ==> title[..2] == "* " && title[2..|title| - |TitleSuffix|] == FileLabel(s)
    ensures !s.dirty ==> title[..|title| - |TitleSuffix|] == FileLabel(s)
  {
    (if s.dirty then "* " else "") + FileLabel(s) + TitleSuffix
  }

  /** The title starts with "* " exactly when the session is dirty, unless
      the file's own name is "*" or starts with "* ". */
  lemma TitleMarksDirty(s: SessionState)
    ensures |Title(s)| >= 2
    ensures Title(s)[0] == '*' && Title(s)[1] == ' ' <==>
              s.dirty || (|FileLabel(s)| >= 1 && FileLabel(s)[0] == '*' && (|FileLabel(s)| == 1 || FileLabel(s)[1] == ' '))
  {
    var name, title := FileLabel(s), Title(s);
    if s.dirty {
      assert title == "* " + name + TitleSuffix;
    } else {
      assert title == name + TitleSuffix;
      if |name| == 0 {
        assert title[0] == TitleSuffix[0];
      } else if |name| == 1 {
        assert title[0] == name[0] && title[1] == TitleSuffix[0];
      } else {
        assert title[0] == name[0] && title[1] == name[1];
      }
    }
  }

  /** Two sessions on the same file show different titles when only one of
      them is dirty. */
  lemma TitleTellsDirtyApart(s: SessionState, t: SessionState)
    requires FileLabel(s) == FileLabel(t) && s.dirty != t.dirty
    ensures Title(s) != Title(t)
  {
  }

  /** The status-bar labels of getLanguageDisplayName: 17 tags. */
  const DisplayNames: map<string, string> := map[
    "plaintext" := "Plain Text",
    "html" := "HTML",
    "xml" := "XML",
    "json" := "JSON",
    "javascript" := "JavaScript",
    "typescript" := "TypeScript",
    "csharp" := "C#",
    "css" := "CSS",
    "scss" := "SCSS",
    "less" := "Less",
    "java" := "Java",
    "sql" := "SQL",
    "c" := "C",
    "cpp" := "C++",
    "python" := "Python",
    "markdown" := "Markdown",
    "yaml" := "YAML"
  ]

  /** `names[lang] || lang`: the table's label, or the tag itself. */
  function GetLanguageDisplayName(lang: string): (shown: string)
    ensures lang in DisplayNames ==> shown == DisplayNames[lang] && shown != ""
    ensures lang !in DisplayNames ==> shown == lang
    ensures shown == "" <==> lang == ""
  {
    if lang in DisplayNames && DisplayNames[lang] != "" then DisplayNames[lang] else lang
  }

  /** The two tables agree: every tag the host can report has a label of its
      own, so the status bar never falls back to echoing a tag for a file
      the host opened. */
  lemma EveryLanguageHasLabel(ext: string)
    ensures GetLanguageFromExtension(ext) in DisplayNames
  {
    forall t | t in LanguageTags
      ensures t in DisplayNames
    {
    }
  }

  lemma DisplayNameExamples()
    ensures GetLanguageDisplayName(GetLanguageFromExtension(".TS")) == "TypeScript"
    ensures GetLanguageDisplayName("csharp") == "C#"
    ensures GetLanguageDisplayName("rust") == "rust"
  {
    assert "rust" !in DisplayNames.Keys;
    LanguageExamples();
  }

  // ---------------------------------------------------------------- event traces

  /** What reaches the view process: menu commands and the opened-file
      notification from the host, and content changes from the widget.  A
      save carries the widget's text and the reply the host gives to whichever
      request is sent. */
  datatype Event =
    | MenuNew
    | FileOpened(data: FileData)
    | ContentChanged
    | MenuSave(content: string, saveReply: SaveReply, dialogReply: SaveAsReply)
    | MenuSaveAs(content: string, dialogReply: SaveAsReply)

  function Step(s: SessionState, e: Event): SessionState {
    match e
    case MenuNew => AfterNewFile(s)
    case FileOpened(data) => AfterLoadFile(s, data)
    case ContentChanged => AfterContentChange(s)
    case MenuSave(_, saveReply, dialogReply) => AfterSave(s, saveReply, dialogReply)
    case MenuSaveAs(_, dialogReply) => AfterSaveAs(s, dialogReply)
  }

  /** Whether the action for `e` calls updateTitle: "New" and opening a file
      always do, an edit only on a clean session, a save only when it
      succeeded. */
  predicate WritesTitle(s: SessionState, e: Event) {
    match e
    case MenuNew => true
    case FileOpened(_) => true
    case ContentChanged => !s.dirty
    case MenuSave(_, saveReply, dialogReply) => if HasPath(s) then saveReply.Saved? else dialogReply.SavedAs?
    case MenuSaveAs(_, dialogReply) => dialogReply.SavedAs?
  }

  /** An action that leaves the title alone also leaves the session alone, so
      a title once written keeps showing the current state. */
  lemma SilentStepChangesNothing(s: SessionState, e: Event)
    ensures !WritesTitle(s, e) ==> Step(s, e) == s
  {
  }

  function Run(s: SessionState, events: seq<Event>): SessionState
    decreases |events|
  {
    if events == [] then s else Run(Step(s, events[0]), events[1..])
  }

  /** The files the host opens are always in one of its three encodings. */
  predicate OpenedByHost(e: Event) {
    e.FileOpened? ==> e.data.encoding in EncodingNames
  }

  /** Whatever the user does, the session's encoding stays one the host can
      write, provided it only opens files through the host. */
  lemma {:induction false} EncodingStaysKnown(s: SessionState, events: seq<Event>)
    requires s.encoding in EncodingNames
    requires forall i :: 0 <= i < |events| ==> OpenedByHost(events[i])
    ensures Run(s, events).encoding in EncodingNames
    decreases |events|
  {
    if events != [] {
      assert OpenedByHost(events[0]);
      EncodingStaysKnown(Step(s, events[0]), events[1..]);
    }
  }

  /** Only "New" and opening a file change the encoding: edits and saves of
      any outcome keep it, so a file is written back in the encoding it was
      read with. */
  lemma {:induction false} EncodingKeptByEditsAndSaves(s: SessionState, events: seq<Event>)
    requires forall i :: 0 <= i < |events| ==> !events[i].MenuNew? && !events[i].FileOpened?
    ensures Run(s, events).encoding == s.encoding
    decreases |events|
  {
    if events != [] {
      EncodingKeptByEditsAndSaves(Step(s, events[0]), events[1..]);
    }
  }

  /** A file opened through the host and then edited and saved any number of
      times is saved with the encoding detected when it was read, by
      `save-file` and by `save-file-dialog` alike. */
  lemma SaveUsesDetectedEncoding(s: SessionState, path: string, bytes: seq<bv8>,
                                 decode: (seq<bv8>, string) -> string, events: seq<Event>, content: string)
    requires forall i :: 0 <= i < |events| ==> !events[i].MenuNew? && !events[i].FileOpened?
    ensures Run(AfterLoadFile(s, ReadFileWithEncoding(path, bytes, decode)), events).encoding == DetectEncoding(bytes).Name()
    ensures var t := Run(AfterLoadFile(s, ReadFileWithEncoding(path, bytes, decode)), events);
            HasPath(t) ==> SaveRequestFor(t, content).encoding == DetectEncoding(bytes).Name()
    ensures var t := Run(AfterLoadFile(s, ReadFileWithEncoding(path, bytes, decode)), events);
            SaveAsRequestFor(t, content).encoding == DetectEncoding(bytes).Name()
  {
    EncodingKeptByEditsAndSaves(AfterLoadFile(s, ReadFileWithEncoding(path, bytes, decode)), events);
  }

  /** A cancelled or failed save-as, whatever the host went through, leaves
      the session as it was; one where the user picked a path and the write
      succeeded adopts that path and is clean. */
  lemma SaveAsThroughHost(s: SessionState, dialog: SaveDialogResult, write: WriteOutcome)
    ensures !SaveFileDialog(dialog, write).SavedAs? ==> AfterSaveAs(s, SaveFileDialog(dialog, write)) == s
    ensures dialog.canceled ==> AfterSaveAs(s, SaveFileDialog(dialog, write)) == s
    ensures write.WriteFailed? ==> AfterSaveAs(s, SaveFileDialog(dialog, write)) == s
    ensures !dialog.canceled && dialog.filePath.Some? && dialog.filePath.value != "" && write.Written? ==>
              AfterSaveAs(s, SaveFileDialog(dialog, write)) == s.(filePath := dialog.filePath, dirty := false)
  {
  }

  // ---------------------------------------------------------------- the session object

  /** The view process's session, updated in place by its actions.  `title`
      is `document.title` as last written by updateTitle (None: the page's
      own title, before any action). */
  class EditorSession {
    var currentFilePath: Option<string>
    var currentEncoding: string
    var isDirty: bool
    var title: Option<string>

    function State(): SessionState
      reads this
    {
      SessionState(currentFilePath, currentEncoding, isDirty)
    }

    /** Once written, the title always shows the current state. */
    ghost predicate Valid()
      reads this
    {
      title.Some? ==> title.value == Title(State())
    }

    constructor ()
      ensures Valid() && State() == Untitled && title == None
    {
      currentFilePath := None;
      currentEncoding := "utf-8";
      isDirty := false;
      title := None;
    }

    method UpdateTitle()
      modifies this`title
      ensures title == Some(Title(State()))
    {
      var fileName := if currentFilePath.Some? && currentFilePath.value != ""
                      then Paths.Basename(currentFilePath.value) else "Untitled";
      title := Some((if isDirty then "* " else "") + fileName + " - Text Editor");
    }

    method NewFile()
      requires Valid()
      modifies this
      ensures Valid() && State() == AfterNewFile(old(State())) && title == Some(Title(State()))
    {
      currentFilePath := None;
      currentEncoding := "utf-8";
      isDirty := false;
      UpdateTitle();
    }

    method LoadFile(data: FileData)
      requires Valid()
      modifies this
      ensures Valid() && State() == AfterLoadFile(old(State()), data) && title == Some(Title(State()))
    {
      currentFilePath := Some(data.filePath);
      currentEncoding := data.encoding;
      isDirty := false;
      UpdateTitle();
    }

    method OnContentChanged()
      requires Valid()
      modifies this
      ensures Valid() && State() == AfterContentChange(old(State()))
      ensures old(isDirty) ==> title == old(title)
      ensures !old(isDirty) ==> title == Some(Title(State()))
    {
      if !isDirty {
        isDirty := true;
        UpdateTitle();
      }
    }

    method SaveFileAs(content: string, reply: SaveAsReply) returns (request: SaveRequest)
      requires Valid()
      modifies this
      ensures request == SaveAsRequestFor(old(State()), content)
      ensures Valid() && State() == AfterSaveAs(old(State()), reply)
      ensures reply.SavedAs? ==> title == Some(Title(State()))
      ensures !reply.SavedAs? ==> title == old(title)
    {
      var suggestedName := if currentFilePath.Some? && currentFilePath.value != ""
                           then Paths.Basename(currentFilePath.value) else "untitled.txt";
      request := SaveFileDialogRequest(content, currentEncoding, suggestedName);
      if reply.SavedAs? {
        currentFilePath := Some(reply.filePath);
        isDirty := false;
        UpdateTitle();
      }
    }

    method SaveFile(content: string, saveReply: SaveReply, dialogReply: SaveAsReply) returns (request: SaveRequest)
      requires Valid()
      modifies this
      ensures request == if HasPath(old(State())) then SaveRequestFor(old(State()), content)
                         else SaveAsRequestFor(old(State()), content)
      ensures Valid() && State() == AfterSave(old(State()), saveReply, dialogReply)
      ensures WritesTitle(old(State()), MenuSave(content, saveReply, dialogReply)) ==> title == Some(Title(State()))
      ensures !WritesTitle(old(State()), MenuSave(content, saveReply, dialogReply)) ==> title == old(title)
    {
      if !(currentFilePath.Some? && currentFilePath.value != "") {
        request := SaveFileAs(content, dialogReply);
        return;
      }
      request := SaveFileRequest(currentFilePath.value, content, currentEncoding);
      if saveReply.Saved? {
        isDirty := false;
        UpdateTitle();
      }
    }

    /** The listeners: menu commands and the opened-file notification from the
        host, and the widget's content-change event. */
    method Handle(e: Event)
      requires Valid()
      modifies this
      ensures Valid() && State() == Step(old(State()), e)
      ensures WritesTitle(old(State()), e) ==> title == Some(Title(State()))
      ensures !WritesTitle(old(State()), e) ==> title == old(title)
    {
      match e
      case MenuNew => NewFile();
      case FileOpened(data) => LoadFile(data);
      case ContentChanged => OnContentChanged();
      case MenuSave(content, saveReply, dialogReply) => var _ := SaveFile(content, saveReply, dialogReply);
      case MenuSaveAs(content, dialogReply) => var _ := SaveFileAs(content, dialogReply);
    }
  }
}
