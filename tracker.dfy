/** The extension's event capture: three tracker functions that append one
    event to a session's buffer of unsent events, built from the document
    the editor reports. */
module Tracker {
  import opened Wrappers
  import opened Seqs
  import opened Strings
  import opened Event
  import opened Store

  datatype Uri = Uri(scheme: string, fsPath: string)

  datatype TextDocument = TextDocument(uri: Uri, fileName: string, languageId: string, text: string)

  datatype TextEditor = TextEditor(document: TextDocument)

  /** One entry of `contentChanges`: the text that replaced a range. */
  datatype ContentChange = ContentChange(text: string)

  datatype ChangeEvent = ChangeEvent(document: Option<TextDocument>, contentChanges: seq<ContentChange>)

  /** A capture session. Only its buffer of unsent events changes after it
      is created. */
  class Session {
    const id: string
    const startTime: int
    const user: string
    const workspace: string
    var activities: seq<RawActivity>

    constructor (id: string, startTime: int, user: string, workspace: string)
      ensures this.id == id && this.startTime == startTime
      ensures this.user == user && this.workspace == workspace
      ensures activities == []
    {
      this.id := id;
      this.startTime := startTime;
      this.user := user;
      this.workspace := workspace;
      activities := [];
    }
  }

  // ------------------------------------------------------------ paths

  /** `path` without its trailing separators. */
  function StripTrailing(path: string): (r: string)
    ensures r == [] || r[|r| - 1] != '/'
    ensures r <= path
    ensures forall i :: |r| <= i < |path| ==> path[i] == '/'
  {
    if path != [] && path[|path| - 1] == '/' then StripTrailing(path[..|path| - 1]) else path
  }

  /** The part of `path` after its last separator. */
  function LastSegment(path: string): (name: string)
    ensures '/' !in name
    ensures |name| <= |path| && path[|path| - |name|..] == name
    ensures |name| < |path| ==> path[|path| - |name| - 1] == '/'
  {
    if path == [] || path[|path| - 1] == '/' then []
    else LastSegment(path[..|path| - 1]) + [path[|path| - 1]]
  }

  /** `path.basename` on POSIX paths: the last segment, trailing
      separators ignored. */
  function Basename(path: string): (name: string)
    ensures '/' !in name
  {
    LastSegment(StripTrailing(path))
  }

  /** The base name of a file in a directory is the file's own name. */
  lemma {:induction false} BasenameOfJoin(dir: string, name: string)
    requires name != [] && '/' !in name
    ensures Basename(dir + "/" + name) == name
  {
    var path := dir + "/" + name;
    assert path[|path| - 1] == name[|name| - 1];
    assert StripTrailing(path) == path;
    LastSegmentAfterSeparator(dir + "/", name);
  }

  lemma {:induction false} LastSegmentAfterSeparator(prefix: string, name: string)
    requires prefix != [] && prefix[|prefix| - 1] == '/'
    requires '/' !in name
    ensures LastSegment(prefix + name) == name
    decreases |name|
  {
    if name == [] {
      assert prefix + name == prefix;
    } else {
      var path := prefix + name;
      var init, last := name[..|name| - 1], name[|name| - 1];
      assert last in name;
      assert path[|path| - 1] == last != '/';
      assert path[..|path| - 1] == prefix + init;
      assert '/' !in init by {
        assert forall c :: c in init ==> c in name;
      }
      LastSegmentAfterSeparator(prefix, init);
      assert LastSegment(path) == LastSegment(prefix + init) + [last];
      assert init + [last] == name;
    }
  }

  /** getProjectFolder, given the path of the workspace folder that holds
      the document (the editor's lookup), if any. */
  function ProjectFolder(workspaceFolder: Option<string>): (folder: string)
    ensures workspaceFolder.None? ==> folder == "unknown"
    ensures workspaceFolder.Some? ==> folder == Basename(workspaceFolder.value)
  {
    if workspaceFolder.Some? then Basename(workspaceFolder.value) else "unknown"
  }

  // ----------------------------------------------------------- events

  function ChangeLength(c: ContentChange): int
  {
    Utf16Length(c.text)
  }

  /** The text an edit inserted, in UTF-16 code units, over all its changes. */
  function TotalChangeSize(changes: seq<ContentChange>): (n: nat)
  {
    SumNonNegative(changes, ChangeLength);
    Sum(changes, ChangeLength)
  }

  /** getTotalChangeSize. */
  method GetTotalChangeSize(contentChanges: seq<ContentChange>) returns (totalSize: nat)
    ensures totalSize == TotalChangeSize(contentChanges)
  {
    totalSize := 0;
    for i := 0 to |contentChanges|
      invariant totalSize == Sum(contentChanges[..i], ChangeLength)
    {
      assert contentChanges[..i + 1][..i] == contentChanges[..i];
      totalSize := totalSize + Utf16Length(contentChanges[i].text);
    }
    assert contentChanges[..|contentChanges|] == contentChanges;
  }

  /** The change sizes of two edits add up. */
  lemma TotalChangeSizeConcat(a: seq<ContentChange>, b: seq<ContentChange>)
    ensures TotalChangeSize(a + b) == TotalChangeSize(a) + TotalChangeSize(b)
  {
    SumConcat(a, b, ChangeLength);
  }

  /** The object a tracker function pushes: the type, the time, the file's
      base name and path, its language and project folder, and the one size
      the event type carries. No user, username or session id. */
  function TrackedEvent(kind: string, now: int, document: TextDocument, folder: Option<string>,
                        fileSize: Option<nat>, changeSize: Option<nat>): (e: RawActivity)
    ensures e.sessionId.None? && e.user.None? && e.username.None?
    ensures e.kind == Some(kind) && e.timestamp == Some(now)
    ensures e.fileName == Some(Basename(document.fileName)) && e.filePath == Some(document.fileName)
    ensures e.language == Some(document.languageId) && e.projectFolder == Some(ProjectFolder(folder))
    ensures e.fileSize == fileSize && e.changeSize == changeSize
  {
    RawActivity(None, None, None, Some(kind), Some(now), Some(Basename(document.fileName)),
      Some(document.fileName), Some(document.languageId), Some(ProjectFolder(folder)),
      None, fileSize, changeSize, None, None, None)
  }

  /** Whether a tracker function accepts the document: present and on disk. */
  predicate Trackable(document: Option<TextDocument>)
  {
    document.Some? && document.value.uri.scheme == "file"
  }

  function EditEvent(event: ChangeEvent, now: int, folder: Option<string>): RawActivity
    requires event.document.Some?
  {
    TrackedEvent("edit", now, event.document.value, folder, None, Some(TotalChangeSize(event.contentChanges)))
  }

  function FocusEvent(document: TextDocument, now: int, folder: Option<string>): RawActivity
  {
    TrackedEvent("focus", now, document, folder, None, None)
  }

  function SaveEvent(document: TextDocument, now: int, folder: Option<string>): RawActivity
  {
    TrackedEvent("save", now, document, folder, Some(Utf16Length(document.text)), None)
  }

  /** trackEdit at instant `now`; `folder` is the workspace folder the
      editor finds for the document. */
  method TrackEdit(event: ChangeEvent, session: Session, folder: Option<string>, now: int)
    modifies session
    ensures !Trackable(event.document) ==> session.activities == old(session.activities)
    ensures Trackable(event.document) ==>
      session.activities == old(session.activities) + [EditEvent(event, now, folder)]
  {
    if event.document.None? || event.document.value.uri.scheme != "file" {
      return;
    }
    var document := event.document.value;
    var changeSize := GetTotalChangeSize(event.contentChanges);
    var activity := TrackedEvent("edit", now, document, folder, None, Some(changeSize));
    session.activities := session.activities + [activity];
  }

  /** trackEditorChange. */
  method TrackEditorChange(editor: Option<TextEditor>, session: Session, folder: Option<string>, now: int)
    modifies session
    ensures (editor.None? || editor.value.document.uri.scheme != "file") ==>
      session.activities == old(session.activities)
    ensures editor.Some? && editor.value.document.uri.scheme == "file" ==>
      session.activities == old(session.activities) + [FocusEvent(editor.value.document, now, folder)]
  {
    if editor.None? || editor.value.document.uri.scheme != "file" {
      return;
    }
    var activity := TrackedEvent("focus", now, editor.value.document, folder, None, None);
    session.activities := session.activities + [activity];
  }

  /** trackSave. */
  method TrackSave(document: Option<TextDocument>, session: Session, folder: Option<string>, now: int)
    modifies session
    ensures !Trackable(document) ==> session.activities == old(session.activities)
    ensures Trackable(document) ==>
      session.activities == old(session.activities) + [SaveEvent(document.value, now, folder)]
  {
    if document.None? || document.value.uri.scheme != "file" {
      return;
    }
    var activity := TrackedEvent("save", now, document.value, folder, Some(Utf16Length(document.value.text)), None);
    session.activities := session.activities + [activity];
  }

  /** Events as the tracker builds them carry no session id, so even with
      the server's user and username written over them the schema refuses
      each one, and with it every non-empty batch of them. */
  lemma TrackerEventsRejected(batch: seq<RawActivity>, user: UserId, username: string)
    requires batch != []
    requires forall e :: e in batch ==> e.sessionId.None?
    ensures forall e :: e in batch ==>
      Validate(Stamp(e, user, username)).Err? && SessionIdField in Validate(Stamp(e, user, username)).error
    ensures ValidateAll(StampAll(batch, user, username)).None?
  {
    forall e | e in batch
      ensures Validate(Stamp(e, user, username)).Err? && SessionIdField in Validate(Stamp(e, user, username)).error
    {
      assert Violates(Stamp(e, user, username), SessionIdField);
    }
    assert batch[0] in batch;
    StampedBatchValid(batch, user, username);
  }
}
