/**
 * The server's per-file state machine of src/libs/fileManager.h and
 * src/libs/fileManager.cpp.  Each file action computes the next
 * `FileState` of a file from its previous one and launches a task on a
 * thread of its own.  The task is modelled as its plan: the list of steps
 * it performs in order, which the previous state alone decides.
 *
 * Fields that the C++ leaves uninitialised are `Unassigned` slots.  A
 * transition reads the previous state's tag once, through `AsRead`: the
 * plans and transitions below are functions of that reading, `previous`,
 * which is `None` when an unset tag holds no enumerator.
 */
module ServerFiles {
  import opened Basics
  import Codec
  import PathHelpers

  /** The `Session` of a logged-in connection. */
  datatype Session = Session(clientId: int, socket: int, username: string)

  datatype FileActionType = Upload | Read | Delete

  /** A `FileAction` holds session, filename, type and timestamp as its constructor got them. */
  datatype FileAction = FileAction(session: Session, filename: string, actionType: FileActionType, timestamp: int)

  datatype FileStateTag = EmptyFile | Reading | Updating | Deleting

  /**
   * The completion callback handed to a transition.  The server passes one
   * kind only: start listening again on the session the action came from.
   */
  datatype Callback = StartListening(session: Session)

  /** One step of a task. */
  datatype Step =
    | WaitPrevious               // wait on the previous state's task
    | Reply(code: int)           // send a `Response` with this code to the session
    | ReceiveFile(path: string)  // `downloadFile`: stream the client's file into `path`
    | SendFile(path: string)     // `sendFile`: stream `path` to the client
    | RemoveFile(path: string)   // `deleteFile`
    | Invoke(callback: Callback) // call `onComplete`

  predicate IsFileStep(step: Step) {
    step.ReceiveFile? || step.SendFile? || step.RemoveFile?
  }

  /** A `FileState`: a tag, three timestamps and the task launched by the transition. */
  datatype FileState = FileState(
    tag: Slot<FileStateTag>,
    created: Slot<int>,
    updated: Slot<int>,
    acessed: Slot<int>,
    operation: Slot<seq<Step>>)

  predicate IsEmptyState(s: FileState) { s.tag == Assigned(EmptyFile) }
  predicate IsReadingState(s: FileState) { s.tag == Assigned(Reading) }
  predicate IsUpdatingState(s: FileState) { s.tag == Assigned(Updating) }
  predicate IsDeletingState(s: FileState) { s.tag == Assigned(Deleting) }

  /** `FileState::Empty()`: only the tag is set. */
  function Empty(): (s: FileState)
    ensures IsEmptyState(s)
    ensures s.created.Unassigned? && s.updated.Unassigned? && s.acessed.Unassigned? && s.operation.Unassigned?
  {
    FileState(Assigned(EmptyFile), Unassigned, Unassigned, Unassigned, Unassigned)
  }

  /** Exactly one of the four state predicates holds of an assigned tag. */
  lemma ExactlyOneStatePredicate(s: FileState)
    requires s.tag.Assigned?
    ensures (if IsEmptyState(s) then 1 else 0) + (if IsReadingState(s) then 1 else 0) +
            (if IsUpdatingState(s) then 1 else 0) + (if IsDeletingState(s) then 1 else 0) == 1
  {
    match s.tag.value
    case EmptyFile =>
    case Reading =>
    case Updating =>
    case Deleting =>
  }

  /** Where the server keeps a user's file: "out/<username>/<filename>". */
  function FilePath(action: FileAction): string {
    "out/" + action.session.username + "/" + action.filename
  }

  /**
   * The path of a file names that file: the name a client extracts from a
   * path to upload it (a name without '/') is the name the server stores it
   * under.
   */
  lemma FilePathNamesTheFile(action: FileAction)
    requires '/' !in action.filename
    ensures PathHelpers.ExtractFilenameFromPath(FilePath(action)) == action.filename
  {
    PathHelpers.DirectoryIsDropped("out/" + action.session.username, action.filename);
  }

  /**
   * Different files of users whose names hold no '/' have different paths,
   * so tasks on different entries of the store never touch the same file.
   */
  lemma FilePathsAreDistinct(a: FileAction, b: FileAction)
    requires '/' !in a.session.username && '/' !in b.session.username
    requires FilePath(a) == FilePath(b)
    ensures a.session.username == b.session.username && a.filename == b.filename
  {
    PathHelpers.JoinIsInjective("out/", a.session.username, a.filename, b.session.username, b.filename);
  }

  /** The task of `uploadCommand`, after a previous state whose tag reads as `previous`. */
  function UploadPlan(previous: Option<FileStateTag>, action: FileAction, onComplete: Callback): seq<Step> {
    (if previous != Some(EmptyFile) then [WaitPrevious] else []) +
    [Reply(Codec.ResponseOk), ReceiveFile(FilePath(action)), Invoke(onComplete)]
  }

  /** `uploadCommand`. */
  function UploadCommand(previous: Option<FileStateTag>, action: FileAction, onComplete: Callback): (next: FileState)
    ensures IsUpdatingState(next) && next.updated == Assigned(action.timestamp)
    ensures previous == Some(EmptyFile) || previous == Some(Deleting) ==>
              next.created == Assigned(action.timestamp) && next.acessed == Assigned(action.timestamp)
    ensures !(previous == Some(EmptyFile) || previous == Some(Deleting)) ==>
              next.created.Unassigned? && next.acessed.Unassigned?
    ensures next.operation == Assigned(UploadPlan(previous, action, onComplete))
  {
    var firstWrite := previous == Some(EmptyFile) || previous == Some(Deleting);
    FileState(
      Assigned(Updating),
      if firstWrite then Assigned(action.timestamp) else Unassigned,
      Assigned(action.timestamp),
      if firstWrite then Assigned(action.timestamp) else Unassigned,
      Assigned(UploadPlan(previous, action, onComplete)))
  }

  /** The task of `deleteCommand`. */
  function DeletePlan(previous: Option<FileStateTag>, action: FileAction, onComplete: Callback): seq<Step> {
    if previous == Some(EmptyFile) then [Reply(Codec.ResponseFileNotFound), Invoke(onComplete)]
    else if previous == Some(Deleting) then [WaitPrevious, Reply(Codec.ResponseFileNotFound), Invoke(onComplete)]
    else [WaitPrevious, Reply(Codec.ResponseOk), RemoveFile(FilePath(action)), Invoke(onComplete)]
  }

  /** `deleteCommand`: the tag is set only when the previous state is not empty. */
  function DeleteCommand(previous: Option<FileStateTag>, action: FileAction, onComplete: Callback): (next: FileState)
    ensures previous != Some(EmptyFile) ==> IsDeletingState(next)
    ensures previous == Some(EmptyFile) ==> next.tag.Unassigned?
    ensures next.created.Unassigned? && next.updated.Unassigned? && next.acessed.Unassigned?
    ensures next.operation == Assigned(DeletePlan(previous, action, onComplete))
  {
    FileState(
      if previous != Some(EmptyFile) then Assigned(Deleting) else Unassigned,
      Unassigned, Unassigned, Unassigned,
      Assigned(DeletePlan(previous, action, onComplete)))
  }

  /**
   * The task of `readCommand`.  A previous tag that is none of the four
   * enumerators matches no branch of the task, which then does nothing.
   */
  function ReadPlan(previous: Option<FileStateTag>, action: FileAction, onComplete: Callback): seq<Step> {
    if previous == Some(EmptyFile) then [Reply(Codec.ResponseFileNotFound), Invoke(onComplete)]
    else if previous == Some(Deleting) then [WaitPrevious, Reply(Codec.ResponseFileNotFound), Invoke(onComplete)]
    else if previous == Some(Reading) || previous == Some(Updating) then
      (if previous == Some(Updating) then [WaitPrevious] else []) +
      [Reply(Codec.ResponseOk), SendFile(FilePath(action))] +
      (if previous == Some(Reading) then [WaitPrevious] else []) +
      [Invoke(onComplete)]
    else []
  }

  /** `readCommand`: tag and access time are set unless the file is empty or being deleted. */
  function ReadCommand(previous: Option<FileStateTag>, action: FileAction, onComplete: Callback): (next: FileState)
    ensures previous != Some(EmptyFile) && previous != Some(Deleting) ==>
              IsReadingState(next) && next.acessed == Assigned(action.timestamp)
    ensures previous == Some(EmptyFile) || previous == Some(Deleting) ==> next.tag.Unassigned? && next.acessed.Unassigned?
    ensures next.created.Unassigned? && next.updated.Unassigned?
    ensures next.operation == Assigned(ReadPlan(previous, action, onComplete))
  {
    var live := previous != Some(EmptyFile) && previous != Some(Deleting);
    FileState(
      if live then Assigned(Reading) else Unassigned,
      Unassigned, Unassigned,
      if live then Assigned(action.timestamp) else Unassigned,
      Assigned(ReadPlan(previous, action, onComplete)))
  }

  /**
   * `getNextState`: dispatch on the action type, each transition reading
   * the last state's tag as `AsRead(last.tag, seen)`.  The enumeration has
   * three values, so the closing `throw` is unreachable.
   */
  function GetNextState(last: FileState, seen: Option<FileStateTag>, action: FileAction, onComplete: Callback)
    : (next: FileState)
    ensures action.actionType == Upload ==> next == UploadCommand(AsRead(last.tag, seen), action, onComplete)
    ensures action.actionType == Delete ==> next == DeleteCommand(AsRead(last.tag, seen), action, onComplete)
    ensures action.actionType == Read ==> next == ReadCommand(AsRead(last.tag, seen), action, onComplete)
  {
    var previous := AsRead(last.tag, seen);
    match action.actionType
    case Upload => UploadCommand(previous, action, onComplete)
    case Delete => DeleteCommand(previous, action, onComplete)
    case Read => ReadCommand(previous, action, onComplete)
  }

  // ---------------------------------------------------------------------
  // What every plan guarantees, stated independently of the plans.
  // ---------------------------------------------------------------------

  /** `onComplete` is called exactly once, as the last step. */
  predicate CompletesOnce(plan: seq<Step>, onComplete: Callback) {
    |plan| > 0 && plan[|plan| - 1] == Invoke(onComplete) &&
    forall i :: 0 <= i < |plan| - 1 ==> !plan[i].Invoke?
  }

  /** Exactly one reply is sent, and it comes before any file is touched. */
  predicate RepliesOnceFirst(plan: seq<Step>, code: int) {
    exists r :: 0 <= r < |plan| && plan[r] == Reply(code) &&
      (forall i :: 0 <= i < |plan| && i != r ==> !plan[i].Reply?) &&
      (forall i :: 0 <= i < r ==> !IsFileStep(plan[i]))
  }

  /** No reply is sent and no file is touched before a wait on the previous task. */
  predicate WaitsBeforeAccess(plan: seq<Step>) {
    forall i, j :: 0 <= i < j < |plan| && plan[j].WaitPrevious? ==> !plan[i].Reply? && !IsFileStep(plan[i])
  }

  /** Every file step is on this path. */
  predicate TouchesOnly(plan: seq<Step>, path: string) {
    forall i :: 0 <= i < |plan| && IsFileStep(plan[i]) ==> plan[i].path == path
  }

  /**
   * Upload: wait unless the file was empty, reply Ok, receive the file into
   * the user's folder, complete.  This holds whatever the previous tag reads as.
   */
  lemma UploadPlanProperties(previous: Option<FileStateTag>, action: FileAction, onComplete: Callback)
    ensures var plan := UploadPlan(previous, action, onComplete);
            CompletesOnce(plan, onComplete) && RepliesOnceFirst(plan, Codec.ResponseOk) &&
            WaitsBeforeAccess(plan) && TouchesOnly(plan, FilePath(action)) &&
            (WaitPrevious in plan <==> previous != Some(EmptyFile)) &&
            ReceiveFile(FilePath(action)) in plan
  {
    var plan := UploadPlan(previous, action, onComplete);
    var r := if previous == Some(EmptyFile) then 0 else 1;
    assert plan[r] == Reply(Codec.ResponseOk);
  }

  /**
   * Delete: an empty file is answered FileNotFound at once; otherwise the
   * previous task is awaited first, a file already being deleted is answered
   * FileNotFound, and any other is answered Ok and removed.  This holds
   * whatever the previous tag reads as.
   */
  lemma DeletePlanProperties(previous: Option<FileStateTag>, action: FileAction, onComplete: Callback)
    ensures var plan := DeletePlan(previous, action, onComplete);
            CompletesOnce(plan, onComplete) && WaitsBeforeAccess(plan) && TouchesOnly(plan, FilePath(action)) &&
            (WaitPrevious in plan <==> previous != Some(EmptyFile)) &&
            (previous == Some(EmptyFile) || previous == Some(Deleting) ==>
               RepliesOnceFirst(plan, Codec.ResponseFileNotFound) && forall i :: 0 <= i < |plan| ==> !IsFileStep(plan[i])) &&
            (previous != Some(EmptyFile) && previous != Some(Deleting) ==>
               RepliesOnceFirst(plan, Codec.ResponseOk) && RemoveFile(FilePath(action)) in plan)
  {
    var plan := DeletePlan(previous, action, onComplete);
    var r := if previous == Some(EmptyFile) then 0 else 1;
    assert plan[r].Reply?;
  }

  /**
   * Read, for every enumerator the previous tag reads as: an empty file is
   * answered FileNotFound at once, a file being deleted after waiting; a
   * file being updated is awaited before the reply and the transfer; a file
   * being read is sent at once, and the previous read is awaited only
   * afterwards.
   */
  lemma ReadPlanProperties(tag: FileStateTag, action: FileAction, onComplete: Callback)
    ensures ReadPlanFacts(tag, ReadPlan(Some(tag), action, onComplete), FilePath(action), onComplete)
  {
    var plan := ReadPlan(Some(tag), action, onComplete);
    var path := FilePath(action);
    match tag
    case EmptyFile =>
      assert plan == [Reply(Codec.ResponseFileNotFound), Invoke(onComplete)];
      NotFoundFacts(tag, plan, 0, path, onComplete);
    case Deleting =>
      assert plan == [WaitPrevious, Reply(Codec.ResponseFileNotFound), Invoke(onComplete)];
      NotFoundFacts(tag, plan, 1, path, onComplete);
    case Reading =>
      assert plan == [Reply(Codec.ResponseOk), SendFile(path), WaitPrevious, Invoke(onComplete)];
      FoundFacts(tag, plan, 0, path, onComplete);
    case Updating =>
      assert plan == [WaitPrevious, Reply(Codec.ResponseOk), SendFile(path), Invoke(onComplete)];
      FoundFacts(tag, plan, 1, path, onComplete);
  }

  /**
   * The facts about a read plan after a state tagged `tag`: it completes
   * once, touches only the file's path, waits unless the file was empty,
   * waits before any access unless the last task was a read, and answers
   * "not found" without touching the file after an empty or deleted state,
   * or "ok" and then sends the file after a read or an update.
   */
  ghost predicate ReadPlanFacts(tag: FileStateTag, plan: seq<Step>, path: string, onComplete: Callback) {
    CompletesOnce(plan, onComplete) && TouchesOnly(plan, path) &&
    (WaitPrevious in plan <==> tag != EmptyFile) &&
    (tag != Reading ==> WaitsBeforeAccess(plan)) &&
    (tag == EmptyFile || tag == Deleting ==>
       RepliesOnceFirst(plan, Codec.ResponseFileNotFound) && forall i :: 0 <= i < |plan| ==> !IsFileStep(plan[i])) &&
    (tag == Reading || tag == Updating ==>
       RepliesOnceFirst(plan, Codec.ResponseOk) && SendFile(path) in plan)
  }

  /** The two "not found" read plans: an optional wait, the reply, the completion. */
  lemma NotFoundFacts(tag: FileStateTag, plan: seq<Step>, r: nat, path: string, onComplete: Callback)
    requires (r == 0 && tag == EmptyFile && plan == [Reply(Codec.ResponseFileNotFound), Invoke(onComplete)]) ||
             (r == 1 && tag == Deleting &&
              plan == [WaitPrevious, Reply(Codec.ResponseFileNotFound), Invoke(onComplete)])
    ensures ReadPlanFacts(tag, plan, path, onComplete)
  {
    assert plan[r] == Reply(Codec.ResponseFileNotFound);
    assert plan[r + 1] == Invoke(onComplete);
  }

  /** The two "ok" read plans: the reply and the file, with the wait before them or after them. */
  lemma FoundFacts(tag: FileStateTag, plan: seq<Step>, r: nat, path: string, onComplete: Callback)
    requires (r == 0 && tag == Reading &&
              plan == [Reply(Codec.ResponseOk), SendFile(path), WaitPrevious, Invoke(onComplete)]) ||
             (r == 1 && tag == Updating &&
              plan == [WaitPrevious, Reply(Codec.ResponseOk), SendFile(path), Invoke(onComplete)])
    ensures ReadPlanFacts(tag, plan, path, onComplete)
  {
    assert plan[r] == Reply(Codec.ResponseOk);
    assert plan[r + 1] == SendFile(path);
  }

  /** After a read, a new read sends the file before it waits: reads overlap. */
  lemma ReadAfterReadOverlaps(action: FileAction, onComplete: Callback)
    ensures ReadPlan(Some(Reading), action, onComplete) ==
            [Reply(Codec.ResponseOk), SendFile(FilePath(action)), WaitPrevious, Invoke(onComplete)]
    ensures !WaitsBeforeAccess(ReadPlan(Some(Reading), action, onComplete))
  {
    var plan := ReadPlan(Some(Reading), action, onComplete);
    assert plan[0].Reply? && plan[2].WaitPrevious?;
  }

  /**
   * The transition table.  The resulting tag is, by the previous tag as
   * read (rows; "none" is an unset tag that holds no enumerator) and action
   * (columns):
   *
   *               Upload     Delete      Read
   *   EmptyFile   Updating   unassigned  unassigned
   *   Reading     Updating   Deleting    Reading
   *   Updating    Updating   Deleting    Reading
   *   Deleting    Updating   Deleting    unassigned
   *   none        Updating   Deleting    Reading
   */
  function TableTag(previous: Option<FileStateTag>, actionType: FileActionType): Slot<FileStateTag> {
    match (previous, actionType)
    case (_, Upload) => Assigned(Updating)
    case (Some(EmptyFile), Delete) => Unassigned
    case (_, Delete) => Assigned(Deleting)
    case (Some(EmptyFile), Read) => Unassigned
    case (Some(Deleting), Read) => Unassigned
    case (_, Read) => Assigned(Reading)
  }

  /**
   * Every transition follows the table, and its task completes once except
   * in one case: a read whose previous tag holds no enumerator, which
   * matches no branch of the read task.
   */
  lemma GetNextStateFollowsTable(last: FileState, seen: Option<FileStateTag>, action: FileAction, onComplete: Callback)
    ensures var next, previous := GetNextState(last, seen, action, onComplete), AsRead(last.tag, seen);
            next.tag == TableTag(previous, action.actionType) && next.operation.Assigned? &&
            (CompletesOnce(next.operation.value, onComplete) <==> !(action.actionType == Read && previous.None?))
  {
    var previous := AsRead(last.tag, seen);
    match action.actionType
    case Upload => UploadPlanProperties(previous, action, onComplete);
    case Delete => DeletePlanProperties(previous, action, onComplete);
    case Read =>
      if previous.Some? {
        ReadPlanProperties(previous.value, action, onComplete);
      } else {
        assert ReadPlan(previous, action, onComplete) == [];
      }
  }

  /**
   * The transition as evidently intended: a state the source leaves
   * untagged keeps the tag of the state it follows, so an empty file stays
   * `EmptyFile` and a file being deleted stays `Deleting`.
   */
  function IntendedNextState(last: FileState, action: FileAction, onComplete: Callback): (next: FileState)
    requires last.tag.Assigned?
    ensures next.tag.Assigned?
    ensures next.operation == GetNextState(last, None, action, onComplete).operation
  {
    var next := GetNextState(last, None, action, onComplete);
    if next.tag.Assigned? then next else next.(tag := last.tag)
  }

  /**
   * With the intended transition every state stays tagged, so every task
   * completes once: after a tagged state, a read never meets a tag that
   * holds no enumerator.  The tag follows the table where the source sets
   * one, and is kept otherwise.
   */
  lemma IntendedNextStateCompletes(last: FileState, action: FileAction, onComplete: Callback)
    requires last.tag.Assigned?
    ensures var next := IntendedNextState(last, action, onComplete);
            next.tag.Assigned? && next.operation.Assigned? && CompletesOnce(next.operation.value, onComplete) &&
            (next.tag == TableTag(Some(last.tag.value), action.actionType) ||
             (TableTag(Some(last.tag.value), action.actionType).Unassigned? && next.tag == last.tag))
  {
    GetNextStateFollowsTable(last, None, action, onComplete);
  }
}
