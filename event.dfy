/** The activity record the server stores, and the schema check a record
    must pass before it is stored: six required fields, a closed set of
    event types, and optional descriptive fields. */
module Event {
  import opened Wrappers

  /** The owning user's database id. */
  type UserId = nat

  /** A string the schema's `required` validator accepts: present and not "". */
  type NonEmpty = s: string | s != [] witness "-"

  datatype Kind = Edit | Focus | Save | Keystroke | Close | Open

  function KindName(k: Kind): string
  {
    match k
    case Edit => "edit"
    case Focus => "focus"
    case Save => "save"
    case Keystroke => "keystroke"
    case Close => "close"
    case Open => "open"
  }

  /** The `enum` validator on `type`. */
  function ParseKind(s: string): (k: Option<Kind>)
    ensures k.Some? ==> KindName(k.value) == s
    ensures k.None? ==> forall kind: Kind :: KindName(kind) != s
  {
    if s == "edit" then Some(Edit)
    else if s == "focus" then Some(Focus)
    else if s == "save" then Some(Save)
    else if s == "keystroke" then Some(Keystroke)
    else if s == "close" then Some(Close)
    else if s == "open" then Some(Open)
    else None
  }

  lemma KindNameRoundTrip(k: Kind)
    ensures ParseKind(KindName(k)) == Some(k)
  {
  }

  /** A stored (validated) record. */
  datatype Activity = Activity(
    user: UserId,
    username: NonEmpty,
    sessionId: NonEmpty,
    kind: Kind,
    timestamp: int,
    fileName: NonEmpty,
    filePath: Option<string>,
    language: Option<string>,
    projectFolder: Option<string>,
    workspace: Option<string>,
    fileSize: Option<nat>,
    changeSize: Option<nat>,
    cursorPosition: Option<nat>,
    lineNumber: Option<nat>,
    characterCount: Option<nat>)

  /** A document as submitted, before validation: every field may be missing
      and `type` is free text. */
  datatype RawActivity = RawActivity(
    user: Option<UserId>,
    username: Option<string>,
    sessionId: Option<string>,
    kind: Option<string>,
    timestamp: Option<int>,
    fileName: Option<string>,
    filePath: Option<string>,
    language: Option<string>,
    projectFolder: Option<string>,
    workspace: Option<string>,
    fileSize: Option<nat>,
    changeSize: Option<nat>,
    cursorPosition: Option<nat>,
    lineNumber: Option<nat>,
    characterCount: Option<nat>)

  /** The schema's validated fields, in declaration order. */
  datatype Field = UserField | UsernameField | SessionIdField | TypeField | TimestampField | FileNameField

  const SchemaFields: seq<Field> :=
    [UserField, UsernameField, SessionIdField, TypeField, TimestampField, FileNameField]

  predicate Present(s: Option<string>)
  {
    s.Some? && s.value != ""
  }

  /** Whether `raw` breaks the schema's rule for field `f`. */
  predicate Violates(raw: RawActivity, f: Field)
  {
    match f
    case UserField => raw.user.None?
    case UsernameField => !Present(raw.username)
    case SessionIdField => !Present(raw.sessionId)
    case TypeField => raw.kind.None? || ParseKind(raw.kind.value).None?
    case TimestampField => raw.timestamp.None?
    case FileNameField => !Present(raw.fileName)
  }

  /** The validation errors of `raw`, in schema order. */
  function Violations(raw: RawActivity): (fs: seq<Field>)
    ensures forall f :: f in fs <==> Violates(raw, f)
  {
    ViolationsIn(raw, SchemaFields)
  }

  function ViolationsIn(raw: RawActivity, fields: seq<Field>): (fs: seq<Field>)
    ensures forall f :: f in fs <==> f in fields && Violates(raw, f)
  {
    if fields == [] then []
    else (if Violates(raw, fields[0]) then [fields[0]] else []) + ViolationsIn(raw, fields[1..])
  }

  /** The document a stored record was created from. */
  function ToRaw(a: Activity): RawActivity
  {
    RawActivity(Some(a.user), Some(a.username), Some(a.sessionId), Some(KindName(a.kind)),
      Some(a.timestamp), Some(a.fileName), a.filePath, a.language, a.projectFolder,
      a.workspace, a.fileSize, a.changeSize, a.cursorPosition, a.lineNumber, a.characterCount)
  }

  /** Schema validation: the record to store, or every rule `raw` breaks. */
  function Validate(raw: RawActivity): (r: Result<Activity, seq<Field>>)
    ensures r.Ok? <==> forall f: Field :: !Violates(raw, f)
    ensures r.Ok? ==> ToRaw(r.value) == raw
    ensures r.Err? ==> r.error != [] && forall f :: f in r.error <==> Violates(raw, f)
  {
    var fs := Violations(raw);
    if fs != [] then
      assert Violates(raw, fs[0]);
      Err(fs)
    else
      assert !Violates(raw, UserField) && !Violates(raw, UsernameField) && !Violates(raw, SessionIdField);
      assert !Violates(raw, TypeField) && !Violates(raw, TimestampField) && !Violates(raw, FileNameField);
      Ok(Activity(raw.user.value, raw.username.value, raw.sessionId.value,
        ParseKind(raw.kind.value).value, raw.timestamp.value, raw.fileName.value,
        raw.filePath, raw.language, raw.projectFolder, raw.workspace, raw.fileSize,
        raw.changeSize, raw.cursorPosition, raw.lineNumber, raw.characterCount))
  }

  /** Every stored record passes validation unchanged. */
  lemma ValidateToRaw(a: Activity)
    ensures Validate(ToRaw(a)) == Ok(a)
  {
    KindNameRoundTrip(a.kind);
    assert !Violates(ToRaw(a), TypeField);
    forall f: Field
      ensures !Violates(ToRaw(a), f)
    {
    }
  }

  /** A record is valid exactly when the six required fields are present
      and `type` names one of the six kinds. */
  lemma ValidIffRequiredPresent(raw: RawActivity)
    ensures Validate(raw).Ok? <==>
      raw.user.Some? && Present(raw.username) && Present(raw.sessionId) &&
      raw.kind.Some? && raw.kind.value in {"edit", "focus", "save", "keystroke", "close", "open"} &&
      raw.timestamp.Some? && Present(raw.fileName)
  {
    if raw.kind.Some? && raw.kind.value in {"edit", "focus", "save", "keystroke", "close", "open"} {
      assert ParseKind(raw.kind.value).Some?;
    }
    if Validate(raw).Ok? {
      assert !Violates(raw, UserField) && !Violates(raw, UsernameField) && !Violates(raw, SessionIdField);
      assert !Violates(raw, TypeField) && !Violates(raw, TimestampField) && !Violates(raw, FileNameField);
      var k := ParseKind(raw.kind.value).value;
      assert KindName(k) == raw.kind.value;
      match k
      case Edit =>
      case Focus =>
      case Save =>
      case Keystroke =>
      case Close =>
      case Open =>
    } else {
      var f: Field :| Violates(raw, f);
      assert f in SchemaFields;
    }
  }

  /** The optional fields never decide validity: two documents that agree
      on the six required fields are both valid or both invalid. */
  lemma OptionalFieldsIrrelevant(raw: RawActivity, other: RawActivity)
    requires raw.user == other.user && raw.username == other.username
    requires raw.sessionId == other.sessionId && raw.kind == other.kind
    requires raw.timestamp == other.timestamp && raw.fileName == other.fileName
    ensures Validate(raw).Ok? <==> Validate(other).Ok?
  {
    assert forall f :: Violates(raw, f) <==> Violates(other, f);
  }
}
