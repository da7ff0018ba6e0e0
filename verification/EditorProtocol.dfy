/**
 * One open text document, the file it shows, and every interleaving of user edits, saves,
 * refreshes, lost responses and writes by other programs.
 */
module EditorProtocol {
  import opened Wrappers

  /** Versions are opaque to the client; the file system never uses one twice. */
  type Version = nat

  datatype Text = Text(content: string, version: Version)

  datatype Disk = Missing | File(version: Version, content: string)

  // ----- The client's document

  datatype Document = Document(
    content: string, savedContent: string, version: Version, dirty: bool, editable: bool, readOnly: bool,
    saving: bool, refreshing: bool, pendingExternal: Option<Text>)
  {
    predicate CanAutoSave() {
      editable && dirty && !readOnly && !saving && !refreshing && pendingExternal.None?
    }

    function Changed(text: string): Document { this.(content := text, dirty := text != savedContent) }

    function SaveAnswered(submitted: string, newVersion: Version): Document {
      this.(saving := false, savedContent := submitted, dirty := content != submitted,
            version := newVersion, pendingExternal := None)
    }

    /** Reconciles the latest buffer with the text a refresh has read. */
    function Refreshed(text: Text): Document {
      if dirty && content != text.content then
        if text.content == savedContent
        then this.(refreshing := false, version := text.version, pendingExternal := None)
        else this.(refreshing := false, pendingExternal := Some(text))
      else
        this.(content := text.content, savedContent := text.content, version := text.version, dirty := false,
              pendingExternal := None, refreshing := false)
    }

    function Reloaded(): Document {
      match pendingExternal
      case None => this
      case Some(text) =>
        this.(content := text.content, savedContent := text.content, version := text.version, dirty := false,
              pendingExternal := None)
    }

    function KeptLocal(): Document {
      match pendingExternal
      case None => this
      case Some(text) =>
        this.(savedContent := text.content, version := text.version, dirty := content != text.content,
              pendingExternal := None)
    }
  }

  // ----- Requests on the server

  datatype SavePhase = Sent | Checked | Answered(result: Option<Version>)

  /** `base` is what the client believed to be on disk when it sent the request. */
  datatype Save = Save(expected: Version, content: string, base: string, phase: SavePhase)

  datatype Read = ReadSent | ReadStat(version: Version) | ReadDone(text: Text) | ReadFailed

  datatype Request = Request(id: nat, background: bool)

  datatype State = State(
    disk: Disk, nextVersion: Version, nextId: nat, saves: map<nat, Save>, fetches: map<nat, Read>,
    doc: Document, savingId: Option<nat>, refresh: Option<Request>)

  datatype Event =
    | Change(text: string)
    | BeginSave
    | SaveSucceeds
    | SaveFails                 // an error, a timeout, or a lost response
    | BeginRefresh(background: bool)
    | RefreshSucceeds
    | RefreshFails
    | CancelRefresh
    | ReloadExternal
    | KeepLocal                 // confirmed by the user
    | CheckSave(id: nat)        // the server compares versions before it receives the body
    | CommitSave(id: nat)       // it compares again, renames the complete file into place and stats it
    | StatRead(id: nat)         // it takes the version
    | ReadBytes(id: nat)        // and then the bytes
    | ExternalWrite(text: string)
    | ExternalDelete

  predicate VersionOnDisk(disk: Disk, version: Version) { disk.File? && disk.version == version }

  function DoBeginSave(st: State): State {
    if !st.doc.CanAutoSave() || st.savingId.Some? || st.refresh.Some? then st
    else
      st.(savingId := Some(st.nextId), nextId := st.nextId + 1, doc := st.doc.(saving := true),
          saves := st.saves[st.nextId := Save(st.doc.version, st.doc.content, st.doc.savedContent, Sent)])
  }

  function DoSaveSucceeds(st: State): State {
    if st.savingId.Some? && st.savingId.value in st.saves && st.saves[st.savingId.value].phase.Answered?
       && st.saves[st.savingId.value].phase.result.Some?
    then
      var save := st.saves[st.savingId.value];
      st.(savingId := None, doc := st.doc.SaveAnswered(save.content, save.phase.result.value))
    else st
  }

  function DoSaveFails(st: State): State {
    if st.savingId.Some? then st.(savingId := None, doc := st.doc.(saving := false)) else st
  }

  function DoBeginRefresh(st: State, background: bool): State {
    if st.doc.saving || st.savingId.Some? || (st.refresh.Some? && (background || !st.refresh.value.background)) then st
    else
      st.(refresh := Some(Request(st.nextId, background)), nextId := st.nextId + 1,
          doc := if background then st.doc else st.doc.(refreshing := true),
          fetches := st.fetches[st.nextId := ReadSent])
  }

  function DoRefreshSucceeds(st: State): State {
    if st.refresh.Some? && st.refresh.value.id in st.fetches && st.fetches[st.refresh.value.id].ReadDone?
    then st.(refresh := None, doc := st.doc.Refreshed(st.fetches[st.refresh.value.id].text))
    else st
  }

  function DoRefreshFails(st: State): State {
    if st.refresh.Some? then st.(refresh := None, doc := st.doc.(refreshing := false)) else st
  }

  function DoCancelRefresh(st: State): State {
    if st.refresh.None? then st
    else st.(refresh := None, doc := if st.refresh.value.background then st.doc else st.doc.(refreshing := false))
  }

  function DoCheckSave(st: State, id: nat): State {
    if id !in st.saves || !st.saves[id].phase.Sent? then st
    else
      var save := st.saves[id];
      st.(saves := st.saves[id := save.(phase := if VersionOnDisk(st.disk, save.expected) then Checked else Answered(None))])
  }

  function DoCommitSave(st: State, id: nat): State {
    if id !in st.saves || !st.saves[id].phase.Checked? then st
    else
      var save := st.saves[id];
      if VersionOnDisk(st.disk, save.expected) then
        st.(disk := File(st.nextVersion, save.content), nextVersion := st.nextVersion + 1,
            saves := st.saves[id := save.(phase := Answered(Some(st.nextVersion)))])
      else st.(saves := st.saves[id := save.(phase := Answered(None))])
  }

  function DoStatRead(st: State, id: nat): State {
    if id !in st.fetches || !st.fetches[id].ReadSent? then st
    else st.(fetches := st.fetches[id := if st.disk.File? then ReadStat(st.disk.version) else ReadFailed])
  }

  function DoReadBytes(st: State, id: nat): State {
    if id !in st.fetches || !st.fetches[id].ReadStat? then st
    else
      st.(fetches := st.fetches[id := if st.disk.File? then ReadDone(Text(st.disk.content, st.fetches[id].version)) else ReadFailed])
  }

  function Apply(st: State, e: Event): State {
    match e
    case Change(text) => st.(doc := st.doc.Changed(text))
    case BeginSave => DoBeginSave(st)
    case SaveSucceeds => DoSaveSucceeds(st)
    case SaveFails => DoSaveFails(st)
    case BeginRefresh(background) => DoBeginRefresh(st, background)
    case RefreshSucceeds => DoRefreshSucceeds(st)
    case RefreshFails => DoRefreshFails(st)
    case CancelRefresh => DoCancelRefresh(st)
    case ReloadExternal => st.(doc := st.doc.Reloaded())
    case KeepLocal => st.(doc := st.doc.KeptLocal())
    case CheckSave(id) => DoCheckSave(st, id)
    case CommitSave(id) => DoCommitSave(st, id)
    case StatRead(id) => DoStatRead(st, id)
    case ReadBytes(id) => DoReadBytes(st, id)
    case ExternalWrite(text) => st.(disk := File(st.nextVersion, text), nextVersion := st.nextVersion + 1)
    case ExternalDelete => st.(disk := Missing)
  }

  /** The document as it is opened, from a text the server has read. */
  function Opened(disk: Disk, nextVersion: Version, text: Text, editable: bool, readOnly: bool): State {
    State(disk, nextVersion, 0, map[], map[],
          Document(text.content, text.content, text.version, false, editable, readOnly, false, false, None), None, None)
  }

  function Run(start: State, events: seq<Event>): State
    decreases |events|
  {
    if events == [] then start else Apply(Run(start, events[..|events| - 1]), events[|events| - 1])
  }

  // ----- The invariant

  /** While the disk has this version, it has this content. */
  predicate Agrees(disk: Disk, version: Version, content: string) {
    VersionOnDisk(disk, version) ==> disk.content == content
  }

  predicate Known(st: State, version: Version, content: string) {
    version < st.nextVersion && Agrees(st.disk, version, content)
  }

  predicate SaveInv(st: State, save: Save) {
    && Known(st, save.expected, save.base)
    && (save.phase.Answered? && save.phase.result.Some? ==> Known(st, save.phase.result.value, save.content))
  }

  predicate ReadInv(st: State, read: Read) {
    && (read.ReadStat? ==> read.version < st.nextVersion)
    && (read.ReadDone? ==> Known(st, read.text.version, read.text.content))
  }

  /** The client's two request guards keep their promises. */
  predicate ClientInv(st: State) {
    && (st.doc.dirty <==> st.doc.content != st.doc.savedContent)
    && !(st.savingId.Some? && st.refresh.Some?)
    && (st.doc.saving <==> st.savingId.Some?)
    && (st.doc.refreshing ==> st.refresh.Some? && !st.refresh.value.background)
    && (st.savingId.Some? ==>
          && st.doc.pendingExternal.None? && st.savingId.value in st.saves
          && var save := st.saves[st.savingId.value];
             save.expected == st.doc.version && save.base == st.doc.savedContent)
    && (forall id :: id in st.saves ==> id < st.nextId)
  }

  ghost predicate Inv(st: State) {
    && ClientInv(st)
    && (st.disk.File? ==> st.disk.version < st.nextVersion)
    && Known(st, st.doc.version, st.doc.savedContent)
    && (st.doc.pendingExternal.Some? ==> Known(st, st.doc.pendingExternal.value.version, st.doc.pendingExternal.value.content))
    && (forall id :: id in st.saves ==> SaveInv(st, st.saves[id]))
    && (forall id :: id in st.fetches ==> ReadInv(st, st.fetches[id]))
  }

  lemma {:induction false} ClientStepKeeps(st: State, e: Event)
    requires Inv(st)
    ensures ClientInv(Apply(st, e))
  {
  }

  /** Versions never recur: what is known of a version stays true. */
  lemma {:induction false} KnownStays(st: State, e: Event, version: Version, content: string)
    requires Known(st, version, content)
    ensures Known(Apply(st, e), version, content)
  {
  }

  /** A save that is not advanced stays as good as it was. */
  lemma {:induction false} SaveStays(st: State, e: Event, save: Save)
    requires SaveInv(st, save)
    ensures SaveInv(Apply(st, e), save)
  {
    KnownStays(st, e, save.expected, save.base);
    if save.phase.Answered? && save.phase.result.Some? { KnownStays(st, e, save.phase.result.value, save.content); }
  }

  lemma {:induction false} SaveAdvances(st: State, e: Event, id: nat)
    requires Inv(st) && id in Apply(st, e).saves && (id !in st.saves || Apply(st, e).saves[id] != st.saves[id])
    ensures SaveInv(Apply(st, e), Apply(st, e).saves[id])
  {
  }

  lemma {:induction false} SavesStepKeep(st: State, e: Event, id: nat)
    requires Inv(st) && id in Apply(st, e).saves
    ensures SaveInv(Apply(st, e), Apply(st, e).saves[id])
  {
    if id in st.saves && Apply(st, e).saves[id] == st.saves[id] {
      SaveStays(st, e, st.saves[id]);
    } else {
      SaveAdvances(st, e, id);
    }
  }

  lemma {:induction false} FetchesStepKeep(st: State, e: Event, id: nat)
    requires Inv(st) && id in Apply(st, e).fetches
    ensures ReadInv(Apply(st, e), Apply(st, e).fetches[id])
  {
  }

  lemma {:induction false} DocumentStepKeeps(st: State, e: Event)
    requires Inv(st)
    ensures Known(Apply(st, e), Apply(st, e).doc.version, Apply(st, e).doc.savedContent)
  {
    KnownStays(st, e, st.doc.version, st.doc.savedContent);
    if st.doc.pendingExternal.Some? {
      KnownStays(st, e, st.doc.pendingExternal.value.version, st.doc.pendingExternal.value.content);
    }
  }

  lemma {:induction false} PendingStepKeeps(st: State, e: Event)
    requires Inv(st) && Apply(st, e).doc.pendingExternal.Some?
    ensures
      var pending := Apply(st, e).doc.pendingExternal.value;
      Known(Apply(st, e), pending.version, pending.content)
  {
  }

  lemma {:induction false} StepKeeps(st: State, e: Event)
    requires Inv(st)
    ensures Inv(Apply(st, e))
  {
    var next := Apply(st, e);
    ClientStepKeeps(st, e);
    DocumentStepKeeps(st, e);
    if next.doc.pendingExternal.Some? { PendingStepKeeps(st, e); }
    forall id | id in next.saves ensures SaveInv(next, next.saves[id]) { SavesStepKeep(st, e, id); }
    forall id | id in next.fetches ensures ReadInv(next, next.fetches[id]) { FetchesStepKeep(st, e, id); }
  }

  /**
   * In every interleaving: the document is dirty exactly when the buffer differs from what was
   * saved, a save and a refresh are never in flight together, and while the disk holds the
   * document's version it holds the saved content.
   */
  lemma {:induction false} RunKeeps(start: State, events: seq<Event>)
    requires Inv(start)
    ensures Inv(Run(start, events))
    decreases |events|
  {
    if events != [] {
      RunKeeps(start, events[..|events| - 1]);
      StepKeeps(Run(start, events[..|events| - 1]), events[|events| - 1]);
    }
  }

  // ----- Opening

  /** What the server keeps of one read, whatever the client does. */
  predicate Reading(st: State, id: nat) {
    && (st.disk.File? ==> st.disk.version < st.nextVersion)
    && id in st.fetches && ReadInv(st, st.fetches[id])
  }

  lemma {:induction false} ReadingStepKeeps(st: State, e: Event, id: nat)
    requires Reading(st, id)
    ensures Reading(Apply(st, e), id)
  {
    if st.fetches[id].ReadDone? { KnownStays(st, e, st.fetches[id].text.version, st.fetches[id].text.content); }
  }

  lemma {:induction false} ReadingKeeps(start: State, events: seq<Event>, id: nat)
    requires Reading(start, id)
    ensures Reading(Run(start, events), id)
    decreases |events|
  {
    if events != [] {
      ReadingKeeps(start, events[..|events| - 1], id);
      ReadingStepKeeps(Run(start, events[..|events| - 1]), events[|events| - 1], id);
    }
  }

  /** A document opened from a read, with any writes between and after its two steps, satisfies the invariant. */
  lemma {:induction false} OpenedInv(start: State, events: seq<Event>, id: nat, editable: bool, readOnly: bool)
    requires start.disk.File? ==> start.disk.version < start.nextVersion
    requires id in start.fetches && start.fetches[id] == ReadSent
    requires id in Run(start, events).fetches && Run(start, events).fetches[id].ReadDone?
    ensures
      var st := Run(start, events);
      Inv(Opened(st.disk, st.nextVersion, st.fetches[id].text, editable, readOnly))
  {
    ReadingKeeps(start, events, id);
  }

  // ----- No lost update

  /** The state of a run after its first `n` events. */
  function After(start: State, events: seq<Event>, n: nat): State
    requires n <= |events|
  {
    Run(start, events[..n])
  }

  /** The moment in which a client sent a save: `base` is what it took to be on disk. */
  ghost predicate SentAt(start: State, events: seq<Event>, n: nat, save: Save)
    requires n < |events|
  {
    var doc := After(start, events, n).doc;
    && events[n] == BeginSave && doc.CanAutoSave()
    && save.expected == doc.version && save.base == doc.savedContent && save.content == doc.content
  }

  /** Every request on the server, even one whose client gave up, was sent at some moment of the run. */
  lemma {:induction false} SaveHasOrigin(start: State, events: seq<Event>, id: nat)
    requires start.saves == map[] && id in Run(start, events).saves
    ensures exists n :: 0 <= n < |events| && SentAt(start, events, n, Run(start, events).saves[id])
    decreases |events|
  {
    assert events != [];
    var last := |events| - 1;
    var before := events[..last];
    var st := Run(start, before);
    var save := Run(start, events).saves[id];
    SavesChangeOnly(st, events[last], id);
    if id in st.saves && SameRequest(st.saves[id], save) {
      SaveHasOrigin(start, before, id);
      var n :| 0 <= n < |before| && SentAt(start, before, n, st.saves[id]);
      assert events[..n] == before[..n];
      assert SentAt(start, events, n, save);
    } else {
      assert SentAt(start, events, last, save);
    }
  }

  lemma {:induction false} SavesChangeOnly(st: State, e: Event, id: nat)
    requires id in Apply(st, e).saves
    ensures
      var save := Apply(st, e).saves[id];
      || (id in st.saves && SameRequest(st.saves[id], save))
      || (e == BeginSave && st.doc.CanAutoSave() && SameRequest(save, Save(st.doc.version, st.doc.content, st.doc.savedContent, Sent)))
  {
  }

  predicate SameRequest(a: Save, b: Save) { a.expected == b.expected && a.content == b.content && a.base == b.base }

  /**
   * A save that reaches the disk, however late, replaces exactly the content its client based the
   * buffer on, or had accepted, when it sent the save.
   */
  lemma {:induction false} NoLostUpdate(start: State, events: seq<Event>, id: nat)
    requires Inv(start) && start.saves == map[]
    requires Apply(Run(start, events), CommitSave(id)).disk != Run(start, events).disk
    ensures
      var st := Run(start, events);
      && id in st.saves && st.disk == File(st.saves[id].expected, st.saves[id].base)
      && Apply(st, CommitSave(id)).disk == File(st.nextVersion, st.saves[id].content)
      && exists n :: 0 <= n < |events| && SentAt(start, events, n, st.saves[id])
  {
    RunKeeps(start, events);
    SaveHasOrigin(start, events, id);
  }

  /**
   * What the client takes to be on disk changes only to what its own save wrote, to a text it read
   * while the buffer was clean or equal, or to a text the user accepted.
   */
  lemma {:induction false} SavedContentChangesOnly(st: State, e: Event)
    requires Inv(st) && Apply(st, e).doc.savedContent != st.doc.savedContent
    ensures
      var next := Apply(st, e).doc.savedContent;
      || (e == SaveSucceeds && st.savingId.Some? && next == st.saves[st.savingId.value].content)
      || (e == RefreshSucceeds && (!st.doc.dirty || next == st.doc.content))
      || ((e == ReloadExternal || e == KeepLocal) && st.doc.pendingExternal.Some? && next == st.doc.pendingExternal.value.content)
  {
  }

  // ----- What the events yield

  /**
   * A refresh never loses the text it read. Either the document now is that text, clean; or the
   * unsaved buffer is kept, still dirty, and the text is offered to the user, unless it is what
   * the buffer was based on, whose version is then the one read.
   */
  lemma {:induction false} RefreshYields(st: State)
    requires Inv(st)
    requires st.refresh.Some? && st.refresh.value.id in st.fetches && st.fetches[st.refresh.value.id].ReadDone?
    ensures
      var text, was, doc := st.fetches[st.refresh.value.id].text, st.doc, Apply(st, RefreshSucceeds).doc;
      && Apply(st, RefreshSucceeds).refresh.None? && !doc.refreshing
      && (|| (doc.content == doc.savedContent == text.content && doc.version == text.version
              && !doc.dirty && doc.pendingExternal.None? && (!was.dirty || was.content == text.content))
          || (was.dirty && doc.dirty && doc.content == was.content != text.content
              && doc.savedContent == was.savedContent
              && (|| (doc.pendingExternal == Some(text) && doc.version == was.version && text.content != was.savedContent)
                  || (doc.pendingExternal.None? && doc.version == text.version && text.content == was.savedContent))))
  {
  }

  /** A successful save makes what was sent the saved text, with the version of the answer; the buffer stays. */
  lemma {:induction false} SaveYields(st: State)
    requires Inv(st) && st.savingId.Some?
    ensures
      var doc := Apply(st, SaveFails).doc;
      doc == st.doc.(saving := false) && Apply(st, SaveFails).savingId.None?
    ensures
      var save, doc := st.saves[st.savingId.value], Apply(st, SaveSucceeds).doc;
      save.phase.Answered? && save.phase.result.Some? ==>
        && doc.savedContent == save.content && Some(doc.version) == save.phase.result
        && doc.content == st.doc.content && (doc.dirty <==> doc.content != save.content)
        && !doc.saving && doc.pendingExternal.None? && Apply(st, SaveSucceeds).savingId.None?
  {
  }

  /** The user's answer to a conflict: the foreign text becomes the document, or only its base. */
  lemma {:induction false} ConflictYields(st: State)
    ensures
      var pending, doc, kept := st.doc.pendingExternal, Apply(st, ReloadExternal).doc, Apply(st, KeepLocal).doc;
      if pending.None? then doc == kept == st.doc
      else
        && doc.content == doc.savedContent == kept.savedContent == pending.value.content
        && doc.version == kept.version == pending.value.version && !doc.dirty
        && kept.content == st.doc.content && (kept.dirty <==> kept.content != pending.value.content)
        && doc.pendingExternal.None? && kept.pendingExternal.None?
  {
  }

  /** A save is sent exactly for an editable document with unsaved text and nothing else going on. */
  lemma {:induction false} SaveIsSent(st: State)
    requires Inv(st)
    ensures
      Apply(st, BeginSave) != st <==>
      && st.doc.editable && !st.doc.readOnly && st.doc.content != st.doc.savedContent
      && st.doc.pendingExternal.None? && st.savingId.None? && st.refresh.None?
    ensures
      Apply(st, BeginSave) != st ==>
      && Apply(st, BeginSave).savingId == Some(st.nextId) && st.nextId in Apply(st, BeginSave).saves
      && Apply(st, BeginSave).saves[st.nextId] == Save(st.doc.version, st.doc.content, st.doc.savedContent, Sent)
  {
    if Apply(st, BeginSave) != st { assert Apply(st, BeginSave).nextId != st.nextId; }
  }

  /** A refresh is sent unless a save is under way, and replaces only a background refresh, and that only by an explicit one. */
  lemma {:induction false} RefreshIsSent(st: State, background: bool)
    requires Inv(st)
    ensures
      Apply(st, BeginRefresh(background)) != st <==>
      st.savingId.None? && (st.refresh.None? || (!background && st.refresh.value.background))
    ensures
      Apply(st, BeginRefresh(background)) != st ==>
      && Apply(st, BeginRefresh(background)).refresh == Some(Request(st.nextId, background))
      && Apply(st, BeginRefresh(background)).fetches == st.fetches[st.nextId := ReadSent]
  {
    if Apply(st, BeginRefresh(background)) != st { assert Apply(st, BeginRefresh(background)).nextId != st.nextId; }
  }

  /** A refresh that fails or is cancelled leaves everything but its own mark. */
  lemma {:induction false} AbandonedRefresh(st: State)
    requires Inv(st) && st.refresh.Some?
    ensures Apply(st, RefreshFails) == Apply(st, CancelRefresh) == st.(refresh := None, doc := st.doc.(refreshing := false))
  {
  }

  /** A save that nothing disturbs ends with the buffer on disk and the document clean. */
  lemma {:induction false} UndisturbedSave(st: State)
    requires Inv(st) && Apply(st, BeginSave) != st && VersionOnDisk(st.disk, st.doc.version)
    ensures
      var end := Apply(Apply(Apply(Apply(st, BeginSave), CheckSave(st.nextId)), CommitSave(st.nextId)), SaveSucceeds);
      && end.disk == File(st.nextVersion, st.doc.content) && end.doc.content == st.doc.content
      && !end.doc.dirty && end.doc.version == st.nextVersion && end.savingId.None?
  {
    SaveIsSent(st);
    var checked := Apply(Apply(st, BeginSave), CheckSave(st.nextId));
    assert checked.saves[st.nextId].phase == Checked;
  }

  /** A save based on anything but what is on disk is refused, and leaves disk and buffer alone. */
  lemma {:induction false} RefusedSave(st: State)
    requires Inv(st) && Apply(st, BeginSave) != st && !VersionOnDisk(st.disk, st.doc.version)
    ensures
      var checked := Apply(Apply(st, BeginSave), CheckSave(st.nextId));
      && checked.saves[st.nextId].phase == Answered(None) && checked.disk == st.disk
      && Apply(checked, SaveSucceeds) == checked && Apply(checked, SaveFails).doc == st.doc
  {
    SaveIsSent(st);
  }

  /** A refresh that nothing disturbs shows what is on disk, or offers it beside an unsaved edit. */
  lemma {:induction false} UndisturbedRefresh(st: State, background: bool)
    requires Inv(st) && Apply(st, BeginRefresh(background)) != st && st.disk.File?
    ensures
      var id, text := st.nextId, Text(st.disk.content, st.disk.version);
      var end := Apply(Apply(Apply(Apply(st, BeginRefresh(background)), StatRead(id)), ReadBytes(id)), RefreshSucceeds);
      && (!st.doc.dirty || st.doc.content == text.content ==> end.doc.content == text.content && !end.doc.dirty)
      && (st.doc.dirty && text.content != st.doc.content && text.content != st.doc.savedContent ==>
            end.doc.content == st.doc.content && end.doc.pendingExternal == Some(text))
      && (end.doc.pendingExternal.None? ==> end.doc.version == st.disk.version)
  {
    RefreshIsSent(st, background);
    var id := st.nextId;
    var begun := Apply(st, BeginRefresh(background));
    var read := Apply(Apply(begun, StatRead(id)), ReadBytes(id));
    assert read.fetches[id] == ReadDone(Text(st.disk.content, st.disk.version)) && read.refresh == begun.refresh;
    assert read.doc.dirty == st.doc.dirty && read.doc.content == st.doc.content;
  }

  // ----- No lost edit

  /** The buffer changes only by an edit, by an explicit reload, or by a refresh of a clean document. */
  lemma {:induction false} BufferChangesOnly(st: State, e: Event)
    requires Inv(st) && Apply(st, e).doc.content != st.doc.content
    ensures e.Change? || (e == ReloadExternal && st.doc.pendingExternal.Some?) || (e == RefreshSucceeds && !st.doc.dirty)
  {
  }

  function OnDisk(disk: Disk): set<string> { if disk.File? then {disk.content} else {} }

  /** Every content that was on disk at some moment of the run. */
  function Seen(start: State, events: seq<Event>): set<string>
    decreases |events|
  {
    if events == [] then OnDisk(start.disk) + {start.doc.savedContent}
    else Seen(start, events[..|events| - 1]) + OnDisk(Run(start, events).disk)
  }

  predicate DocumentWitnessed(doc: Document, seen: set<string>) {
    doc.savedContent in seen && (doc.pendingExternal.Some? ==> doc.pendingExternal.value.content in seen)
  }

  predicate SaveWitnessed(save: Save, seen: set<string>) {
    save.phase.Answered? && save.phase.result.Some? ==> save.content in seen
  }

  predicate ReadWitnessed(read: Read, seen: set<string>) { read.ReadDone? ==> read.text.content in seen }

  /** Whatever the client may come to believe saved has been on disk. */
  ghost predicate Witnessed(st: State, seen: set<string>) {
    && OnDisk(st.disk) <= seen && DocumentWitnessed(st.doc, seen)
    && (forall id :: id in st.saves ==> SaveWitnessed(st.saves[id], seen))
    && (forall id :: id in st.fetches ==> ReadWitnessed(st.fetches[id], seen))
  }

  lemma {:induction false} RequestWitnessed(st: State, seen: set<string>, e: Event, id: nat)
    requires Witnessed(st, seen)
    ensures
      var next, later := Apply(st, e), seen + OnDisk(Apply(st, e).disk);
      && (id in next.saves ==> SaveWitnessed(next.saves[id], later))
      && (id in next.fetches ==> ReadWitnessed(next.fetches[id], later))
  {
  }

  lemma {:induction false} WitnessedStep(st: State, seen: set<string>, e: Event)
    requires Witnessed(st, seen)
    ensures Witnessed(Apply(st, e), seen + OnDisk(Apply(st, e).disk))
  {
    forall id { RequestWitnessed(st, seen, e, id); }
    assert DocumentWitnessed(Apply(st, e).doc, seen);
  }

  lemma {:induction false} RunWitnessed(start: State, events: seq<Event>)
    requires Inv(start) && start.saves == map[] && start.fetches == map[] && start.doc.pendingExternal.None?
    ensures Witnessed(Run(start, events), Seen(start, events))
    decreases |events|
  {
    if events != [] {
      var before := events[..|events| - 1];
      RunWitnessed(start, before);
      WitnessedStep(Run(start, before), Seen(start, before), events[|events| - 1]);
    }
  }

  /** At moment `j` a refresh replaces `text` in a clean buffer: it is what the client took to be saved. */
  ghost predicate ReplacedAt(start: State, events: seq<Event>, j: nat, text: string)
    requires j < |events|
  {
    var doc := After(start, events, j).doc;
    events[j] == RefreshSucceeds && doc.content == text && doc.savedContent == text && !doc.dirty
  }

  lemma {:induction false} BufferReplaced(start: State, events: seq<Event>)
    requires events != [] && Inv(After(start, events, |events| - 1))
    requires !events[|events| - 1].Change? && events[|events| - 1] != ReloadExternal
    requires Run(start, events).doc.content != After(start, events, |events| - 1).doc.content
    ensures ReplacedAt(start, events, |events| - 1, After(start, events, |events| - 1).doc.content)
  {
    BufferChangesOnly(After(start, events, |events| - 1), events[|events| - 1]);
  }

  /**
   * From any moment `i` on, until the user edits again or asks for a reload, the buffer keeps the
   * text it had, unless a refresh replaces it when it is clean and saved.
   */
  lemma {:induction false} NoLostEdit(start: State, events: seq<Event>, i: nat)
    requires Inv(start)
    requires i <= |events| && forall k :: i <= k < |events| ==> !events[k].Change? && events[k] != ReloadExternal
    ensures
      var text := After(start, events, i).doc.content;
      || Run(start, events).doc.content == text
      || exists j :: i <= j < |events| && ReplacedAt(start, events, j, text)
    decreases |events|
  {
    if i == |events| {
      assert events[..i] == events;
    } else {
      var last := |events| - 1;
      var before, text := events[..last], After(start, events, i).doc.content;
      assert events[..i] == before[..i];
      NoLostEdit(start, before, i);
      RunKeeps(start, before);
      if Run(start, before).doc.content == text {
        if Run(start, events).doc.content != text {
          BufferReplaced(start, events);
        }
      } else {
        var j :| i <= j < |before| && ReplacedAt(start, before, j, text);
        assert events[..j] == before[..j];
        assert ReplacedAt(start, events, j, text);
      }
    }
  }

  /** At moment `m` the client comes to take `text` to be saved: it wrote it, read it, or the user accepted it. */
  ghost predicate SavedAt(start: State, events: seq<Event>, m: nat, text: string)
    requires m < |events|
  {
    var st, e := After(start, events, m), events[m];
    && st.doc.savedContent != text && After(start, events, m + 1).doc.savedContent == text
    && (|| (e == SaveSucceeds && st.savingId.Some? && st.savingId.value in st.saves
            && st.saves[st.savingId.value].content == text)
        || (e == RefreshSucceeds && (!st.doc.dirty || st.doc.content == text))
        || ((e == ReloadExternal || e == KeepLocal)
            && st.doc.pendingExternal.Some? && st.doc.pendingExternal.value.content == text))
  }

  lemma {:induction false} BecameSaved(start: State, events: seq<Event>, i: nat, j: nat, text: string)
    requires Inv(start) && i <= j <= |events|
    requires After(start, events, i).doc.savedContent != text && After(start, events, j).doc.savedContent == text
    ensures exists m :: i <= m < j && SavedAt(start, events, m, text)
    decreases j - i
  {
    var st, e := After(start, events, i), events[i];
    assert events[..i + 1][..i] == events[..i] && After(start, events, i + 1) == Apply(st, e);
    RunKeeps(start, events[..i]);
    if Apply(st, e).doc.savedContent == text {
      SavedContentChangesOnly(st, e);
      assert SavedAt(start, events, i, text);
    } else {
      BecameSaved(start, events, i + 1, j, text);
    }
  }

  /**
   * An unsaved edit leaves the buffer only by a later edit, by a reload the user asks for, or after
   * it has been saved, found on disk, or accepted by the user since.
   */
  lemma {:induction false} UnsavedEditIsKept(start: State, events: seq<Event>, i: nat)
    requires Inv(start) && i <= |events| && After(start, events, i).doc.dirty
    requires forall k :: i <= k < |events| ==> !events[k].Change? && events[k] != ReloadExternal
    ensures
      var text := After(start, events, i).doc.content;
      || Run(start, events).doc.content == text
      || exists m, j :: i <= m < j < |events| && SavedAt(start, events, m, text) && ReplacedAt(start, events, j, text)
  {
    var text := After(start, events, i).doc.content;
    NoLostEdit(start, events, i);
    if Run(start, events).doc.content != text {
      var j :| i <= j < |events| && ReplacedAt(start, events, j, text);
      RunKeeps(start, events[..i]);
      BecameSaved(start, events, i, j, text);
    }
  }

  // ----- Why the server takes the version before the bytes

  /** The second half of a read by a server that took the bytes first: the version is that of the disk now. */
  function VersionAfterBytes(st: State, id: nat, bytes: string): State
    requires st.disk.File?
  {
    st.(fetches := st.fetches[id := ReadDone(Text(bytes, st.disk.version))])
  }

  /**
   * Had the server read the bytes first, a foreign write in between would break the invariant:
   * the refresh would pair the old bytes with the new version, and the next save would replace a
   * text that the client has never seen.
   */
  lemma {:induction false} BytesFirstIsUnsafe(st: State, now: string)
    requires Inv(st) && st.disk.File? && now != st.disk.content
    requires !st.doc.saving && st.refresh.None? && !st.doc.dirty
    ensures
      var asked := Apply(st, BeginRefresh(false));
      var written := Apply(asked, ExternalWrite(now));
      var answered := Apply(VersionAfterBytes(written, st.nextId, st.disk.content), RefreshSucceeds);
      && Inv(written) && !Inv(VersionAfterBytes(written, st.nextId, st.disk.content))
      && answered.doc.savedContent == st.disk.content
      && VersionOnDisk(answered.disk, answered.doc.version) && answered.disk.content == now
  {
    var asked := Apply(st, BeginRefresh(false));
    var written := Apply(asked, ExternalWrite(now));
    StepKeeps(st, BeginRefresh(false));
    StepKeeps(asked, ExternalWrite(now));
    var swapped := VersionAfterBytes(written, st.nextId, st.disk.content);
    assert !ReadInv(swapped, swapped.fetches[st.nextId]);
    assert written.refresh == Some(Request(st.nextId, false)) && !written.doc.dirty;
  }

  // ----- The client as it runs: one object per workspace, whose handlers are split at their awaits

  class Workspace {
    var doc: Document
    var savingDocumentIds: Option<nat>
    var documentRefreshes: Option<Request>
    var disk: Disk
    var nextVersion: Version
    var nextId: nat
    var saves: map<nat, Save>
    var fetches: map<nat, Read>

    function View(): State
      reads this
    {
      State.State(disk, nextVersion, nextId, saves, fetches, doc, savingDocumentIds, documentRefreshes)
    }

    /** A workspace in any state that a run reaches. */
    constructor (st: State)
      requires Inv(st)
      ensures View() == st && Inv(View())
    {
      doc, savingDocumentIds, documentRefreshes := st.doc, st.savingId, st.refresh;
      disk, nextVersion, nextId, saves, fetches := st.disk, st.nextVersion, st.nextId, st.saves, st.fetches;
    }

    method ChangeDocument(text: string)
      requires Inv(View())
      modifies this`doc
      ensures View() == Apply(old(View()), Change(text)) && Inv(View())
      ensures doc.content == text
    {
      StepKeeps(View(), Change(text));
      doc := doc.(content := text, dirty := text != doc.savedContent);
    }

    /** `saveDocument` up to its request. */
    method SaveDocument()
      requires Inv(View())
      modifies this
      ensures View() == Apply(old(View()), BeginSave) && Inv(View())
    {
      StepKeeps(View(), BeginSave);
      if !doc.CanAutoSave() || savingDocumentIds.Some? || documentRefreshes.Some? { return; }
      var id := nextId;
      nextId := nextId + 1;
      savingDocumentIds := Some(id);
      var submittedContent := doc.content;
      saves := saves[id := Save(doc.version, submittedContent, doc.savedContent, Sent)];
      doc := doc.(saving := true);
    }

    /** `saveDocument` from its answer on; no version means that the request failed. */
    method SaveAnswer(submittedContent: string, version: Option<Version>)
      requires Inv(View())
      requires savingDocumentIds.Some?
      requires version.Some? ==>
                 && savingDocumentIds.value in saves
                 && saves[savingDocumentIds.value].phase == Answered(version)
                 && submittedContent == saves[savingDocumentIds.value].content
      modifies this`doc, this`savingDocumentIds
      ensures View() == Apply(old(View()), if version.Some? then SaveSucceeds else SaveFails) && Inv(View())
    {
      StepKeeps(View(), if version.Some? then SaveSucceeds else SaveFails);
      if version.Some? {
        doc := doc.(saving := false, savedContent := submittedContent, dirty := doc.content != submittedContent,
                    version := version.value, pendingExternal := None);
      } else {
        doc := doc.(saving := false);
      }
      savingDocumentIds := None;
    }

    /** `refreshDocument` up to its request. */
    method RefreshDocument(background: bool)
      requires Inv(View())
      modifies this
      ensures View() == Apply(old(View()), BeginRefresh(background)) && Inv(View())
    {
      StepKeeps(View(), BeginRefresh(background));
      if doc.saving || savingDocumentIds.Some? { return; }
      if documentRefreshes.Some? && (background || !documentRefreshes.value.background) { return; }
      var id := nextId;
      nextId := nextId + 1;
      documentRefreshes := Some(Request(id, background));
      fetches := fetches[id := ReadSent];
      if !background {
        doc := doc.(refreshing := true);
      }
    }

    /** `refreshDocument` from its answer on. */
    method RefreshAnswer(text: Text)
      requires Inv(View())
      requires documentRefreshes.Some? && documentRefreshes.value.id in fetches
      requires fetches[documentRefreshes.value.id] == ReadDone(text)
      modifies this`doc, this`documentRefreshes
      ensures View() == Apply(old(View()), RefreshSucceeds) && Inv(View())
    {
      StepKeeps(View(), RefreshSucceeds);
      if doc.dirty && doc.content != text.content {
        if text.content == doc.savedContent {
          doc := doc.(refreshing := false, version := text.version, pendingExternal := None);
        } else {
          doc := doc.(refreshing := false, pendingExternal := Some(text));
        }
      } else {
        doc := doc.(content := text.content, savedContent := text.content, version := text.version);
        doc := doc.(dirty := false, pendingExternal := None, refreshing := false);
      }
      documentRefreshes := None;
    }

    method ReloadExternalDocument()
      requires Inv(View())
      modifies this`doc
      ensures View() == Apply(old(View()), ReloadExternal) && Inv(View())
    {
      StepKeeps(View(), ReloadExternal);
      if doc.pendingExternal.Some? {
        var text := doc.pendingExternal.value;
        doc := doc.(content := text.content, savedContent := text.content, version := text.version);
        doc := doc.(dirty := false, pendingExternal := None);
      }
    }

    method KeepLocalDocument()
      requires Inv(View())
      modifies this`doc
      ensures View() == Apply(old(View()), KeepLocal) && Inv(View())
    {
      StepKeeps(View(), KeepLocal);
      if doc.pendingExternal.Some? {
        var text := doc.pendingExternal.value;
        doc := doc.(savedContent := text.content, version := text.version);
        doc := doc.(dirty := doc.content != text.content, pendingExternal := None);
      }
    }
  }
}
