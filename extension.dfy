/** The extension's session state machine: Stopped (no session) and
    Tracking (a session whose buffer collects events), the capture gate in
    front of the tracker, and the sync that hands the buffer to the server
    and, when the send fails, is meant to put it back. The send itself is an
    outcome passed in: `SyncData` returns the batch in flight and a
    completion method takes what happened to it. */
module Extension {
  import opened Wrappers
  import opened Strings
  import opened Event
  import opened Tracker

  /** The `codeTracker` settings the extension reads. */
  datatype Config = Config(trackingEnabled: bool, username: Option<string>, serverUrl: Option<string>)

  /** The workspace name a new session records: `name || "unnamed-workspace"`. */
  function WorkspaceName(name: Option<string>): (w: string)
    ensures Present(name) ==> w == name.value
    ensures !Present(name) ==> w == "unnamed-workspace"
  {
    if Present(name) then name.value else "unnamed-workspace"
  }

  /** Whether `syncData` would send: the settings name a server and a user. */
  predicate CanSend(config: Config)
  {
    Present(config.serverUrl) && Present(config.username)
  }

  /** The buffer after a failed send, as evidently intended: the events
      recorded since the swap, then the failed batch (`push` appends). */
  function RequeueAfterFailure(buffer: seq<RawActivity>, batch: seq<RawActivity>): seq<RawActivity>
  {
    buffer + batch
  }

  /** The buffer after a failed send as written: the `catch` block names a
      constant declared inside the `try`, throws, and puts nothing back. */
  function RequeueAfterFailureAsWritten(buffer: seq<RawActivity>, batch: seq<RawActivity>): seq<RawActivity>
  {
    buffer
  }

  /** The intended requeue loses no event and keeps the newer ones first. */
  lemma RequeueKeepsEvents(buffer: seq<RawActivity>, batch: seq<RawActivity>)
    ensures var r := RequeueAfterFailure(buffer, batch);
      multiset(r) == multiset(buffer) + multiset(batch) &&
      |r| == |buffer| + |batch| && r[..|buffer|] == buffer && r[|buffer|..] == batch
  {
  }

  /** As written, a failed batch is gone from the buffer. */
  lemma RequeueLosesBatch(buffer: seq<RawActivity>, batch: seq<RawActivity>)
    requires batch != []
    ensures |RequeueAfterFailureAsWritten(buffer, batch)| == |RequeueAfterFailure(buffer, batch)| - |batch|
    ensures multiset(RequeueAfterFailure(buffer, batch)) - multiset(RequeueAfterFailureAsWritten(buffer, batch)) == multiset(batch)
  {
  }

  /** What a failed send does as written, in its `catch` block. */
  datatype Completion =
    | Sent           // the server took the batch
    | Reported       // the failure was shown; no session, so nothing else ran
    | ReferenceError // the failure was shown, then the requeue threw

  /** The extension's module-level state. */
  class CodeTracker {
    var trackingEnabled: bool
    var currentSession: Session?

    /** A live session means tracking is on. */
    predicate Consistent()
      reads this
    {
      currentSession != null ==> trackingEnabled
    }

    /** activate: tracking as configured, a session started when enabled. */
    constructor (config: Config, workspaceName: Option<string>, now: int)
      ensures Consistent()
      ensures config.trackingEnabled && Present(config.username) ==>
        trackingEnabled && currentSession != null && fresh(currentSession) && currentSession.activities == []
      ensures !(config.trackingEnabled && Present(config.username)) ==>
        trackingEnabled == config.trackingEnabled && currentSession == null
    {
      trackingEnabled := config.trackingEnabled;
      currentSession := null;
      new;
      if trackingEnabled {
        StartTracking(config, workspaceName, now);
      }
    }

    /** startTracking: without a configured username nothing changes;
        otherwise a new session with an empty buffer replaces any old one,
        and tracking is on. */
    method StartTracking(config: Config, workspaceName: Option<string>, now: int)
      requires Consistent()
      modifies this
      ensures Consistent()
      ensures !Present(config.username) ==>
        trackingEnabled == old(trackingEnabled) && currentSession == old(currentSession)
      ensures Present(config.username) ==>
        trackingEnabled && currentSession != null && fresh(currentSession) &&
        currentSession.activities == [] && currentSession.id == IntToString(now) &&
        currentSession.startTime == now && currentSession.user == config.username.value &&
        currentSession.workspace == WorkspaceName(workspaceName)
    {
      if !Present(config.username) {
        return;
      }
      currentSession := new Session(IntToString(now), now, config.username.value, WorkspaceName(workspaceName));
      trackingEnabled := true;
    }

    /** The synchronous part of syncData, up to its `await`: with a session,
        a non-empty buffer and the settings to send, the buffer is swapped
        for an empty one and its prior contents are the batch in flight;
        otherwise nothing is sent and nothing changes. */
    method SyncData(config: Config) returns (inFlight: Option<seq<RawActivity>>)
      modifies currentSession
      ensures currentSession == null ==> inFlight.None?
      ensures currentSession != null && (old(currentSession.activities) == [] || !CanSend(config)) ==>
        inFlight.None? && currentSession.activities == old(currentSession.activities)
      ensures currentSession != null && old(currentSession.activities) != [] && CanSend(config) ==>
        inFlight == Some(old(currentSession.activities)) && currentSession.activities == []
    {
      if currentSession == null || |currentSession.activities| == 0 {
        return None;
      }
      if !Present(config.serverUrl) || !Present(config.username) {
        return None;
      }
      var activitiesToSync := currentSession.activities;
      currentSession.activities := [];
      inFlight := Some(activitiesToSync);
    }

    /** The end of syncData once the send has settled, as evidently
        intended: a failed batch goes back into the buffer of whatever
        session is live by then, after the events recorded meanwhile; with
        no session it is dropped. */
    method CompleteSync(batch: seq<RawActivity>, delivered: bool)
      modifies currentSession
      ensures delivered || currentSession == null ==>
        currentSession == null || currentSession.activities == old(currentSession.activities)
      ensures !delivered && currentSession != null ==>
        currentSession.activities == RequeueAfterFailure(old(currentSession.activities), batch)
    {
      if !delivered && currentSession != null {
        currentSession.activities := currentSession.activities + batch;
      }
    }

    /** The end of syncData as written: on a failure with a live session the
        requeue throws a ReferenceError, so the buffer keeps only the newer
        events (`RequeueAfterFailureAsWritten`); nothing changes in any case. */
    method CompleteSyncAsWritten(batch: seq<RawActivity>, delivered: bool) returns (outcome: Completion)
      ensures delivered <==> outcome == Sent
      ensures !delivered ==> (outcome == ReferenceError <==> currentSession != null)
    {
      if delivered {
        return Sent;
      }
      if currentSession != null {
        return ReferenceError;
      }
      return Reported;
    }

    /** stopTracking: without a session nothing happens; otherwise the final
        sync is started, then the session is dropped and tracking is off,
        so a failure of that last send finds no session to requeue into. */
    method StopTracking(config: Config) returns (inFlight: Option<seq<RawActivity>>)
      modifies this, currentSession
      ensures Consistent()
      ensures old(currentSession) == null ==>
        currentSession == null && trackingEnabled == old(trackingEnabled) && inFlight.None?
      ensures old(currentSession) != null ==> currentSession == null && !trackingEnabled
      ensures old(currentSession) != null && old(currentSession.activities) != [] && CanSend(config) ==>
        inFlight == Some(old(currentSession.activities)) && old(currentSession).activities == []
      ensures old(currentSession) != null && (old(currentSession.activities) == [] || !CanSend(config)) ==>
        inFlight.None? && old(currentSession).activities == old(currentSession.activities)
    {
      inFlight := None;
      if currentSession != null {
        inFlight := SyncData(config);
        currentSession := null;
        trackingEnabled := false;
      }
    }

    /** The body of the one-minute interval: a sync when a session has
        events to send. */
    method Tick(config: Config) returns (inFlight: Option<seq<RawActivity>>)
      modifies currentSession
      ensures currentSession == null ==> inFlight.None?
      ensures currentSession != null && (old(currentSession.activities) == [] || !CanSend(config)) ==>
        inFlight.None? && currentSession.activities == old(currentSession.activities)
      ensures currentSession != null && old(currentSession.activities) != [] && CanSend(config) ==>
        inFlight == Some(old(currentSession.activities)) && currentSession.activities == []
    {
      inFlight := None;
      if currentSession != null && |currentSession.activities| > 0 {
        inFlight := SyncData(config);
      }
    }

    /** Whether the capture listeners pass an event on to the tracker. */
    predicate Capturing()
      reads this
    {
      trackingEnabled && currentSession != null
    }

    /** The `onDidChangeTextDocument` listener. */
    method OnDidChangeTextDocument(event: ChangeEvent, folder: Option<string>, now: int)
      modifies currentSession
      ensures !Capturing() ==> currentSession == null || currentSession.activities == old(currentSession.activities)
      ensures Capturing() ==>
        currentSession.activities ==
          old(currentSession.activities) + (if Trackable(event.document) then [EditEvent(event, now, folder)] else [])
    {
      if !trackingEnabled || currentSession == null {
        return;
      }
      TrackEdit(event, currentSession, folder, now);
    }

    /** The `onDidChangeActiveTextEditor` listener. */
    method OnDidChangeActiveTextEditor(editor: Option<TextEditor>, folder: Option<string>, now: int)
      modifies currentSession
      ensures !Capturing() ==> currentSession == null || currentSession.activities == old(currentSession.activities)
      ensures Capturing() ==>
        currentSession.activities ==
          old(currentSession.activities) +
          (if editor.Some? && editor.value.document.uri.scheme == "file" then [FocusEvent(editor.value.document, now, folder)] else [])
    {
      if !trackingEnabled || currentSession == null {
        return;
      }
      TrackEditorChange(editor, currentSession, folder, now);
    }

    /** The `onDidSaveTextDocument` listener. */
    method OnDidSaveTextDocument(document: Option<TextDocument>, folder: Option<string>, now: int)
      modifies currentSession
      ensures !Capturing() ==> currentSession == null || currentSession.activities == old(currentSession.activities)
      ensures Capturing() ==>
        currentSession.activities ==
          old(currentSession.activities) + (if Trackable(document) then [SaveEvent(document.value, now, folder)] else [])
    {
      if !trackingEnabled || currentSession == null {
        return;
      }
      TrackSave(document, currentSession, folder, now);
    }

    /** The `onDidChangeConfiguration` listener: tracking follows the
        setting, starting when it turns on and stopping when it turns off.
        When it turns on without a username, tracking reads as on with no
        session. */
    method OnDidChangeConfiguration(affectsTracker: bool, config: Config, workspaceName: Option<string>, now: int)
      returns (inFlight: Option<seq<RawActivity>>)
      requires Consistent()
      modifies this, currentSession
      ensures Consistent()
      ensures !affectsTracker || config.trackingEnabled == old(trackingEnabled) ==>
        trackingEnabled == old(trackingEnabled) && currentSession == old(currentSession) && inFlight.None? &&
        (currentSession != null ==> currentSession.activities == old(currentSession.activities))
      ensures affectsTracker && config.trackingEnabled && !old(trackingEnabled) ==>
        trackingEnabled && inFlight.None? &&
        (Present(config.username) ==> currentSession != null && fresh(currentSession) && currentSession.activities == []) &&
        (!Present(config.username) ==> currentSession == null)
      ensures affectsTracker && !config.trackingEnabled && old(trackingEnabled) ==>
        !trackingEnabled && currentSession == null &&
        inFlight == (if old(currentSession) != null && old(currentSession.activities) != [] && CanSend(config)
                     then Some(old(currentSession.activities)) else None)
    {
      inFlight := None;
      if affectsTracker {
        var wasEnabled := trackingEnabled;
        trackingEnabled := config.trackingEnabled;
        if trackingEnabled && !wasEnabled {
          StartTracking(config, workspaceName, now);
        } else if !trackingEnabled && wasEnabled {
          inFlight := StopTracking(config);
        }
      }
    }

    /** deactivate: stop tracking when a session is live. */
    method Deactivate(config: Config) returns (inFlight: Option<seq<RawActivity>>)
      requires Consistent()
      modifies this, currentSession
      ensures Consistent()
      ensures currentSession == null
      ensures old(currentSession) == null ==> trackingEnabled == old(trackingEnabled) && inFlight.None?
      ensures old(currentSession) != null ==> !trackingEnabled
      ensures old(currentSession) != null && old(currentSession.activities) != [] && CanSend(config) ==>
        inFlight == Some(old(currentSession.activities)) && old(currentSession).activities == []
      ensures old(currentSession) != null && (old(currentSession.activities) == [] || !CanSend(config)) ==>
        inFlight.None? && old(currentSession).activities == old(currentSession.activities)
    {
      inFlight := None;
      if currentSession != null {
        inFlight := StopTracking(config);
      }
    }
  }
}
