/**
 * The client's per-file state machine (src/libs/client/client.h and
 * src/libs/client/fileState.cpp).  Operations arrive on a queue; a
 * `ServerUpdate` for a file the client does not have starts one download,
 * which reports back with a `DownloadComplete` or `FailedDownload`
 * operation.  Every other case leaves the file `Inexistent`.
 */
module ClientFiles {
  import opened Basics
  import Codec
  import PathHelpers

  /** The `FileAction` enumeration of the file watcher, with its ordinals. */
  datatype FileAction = Created | Modified | Deleted

  function FileActionOrdinal(a: FileAction): nat {
    match a
    case Created => 0
    case Modified => 1
    case Deleted => 2
  }

  datatype FileOperationTag = ServerUpdate | DownloadComplete | FailedDownload | LocalUpdate

  function OperationTagOrdinal(t: FileOperationTag): nat {
    match t
    case ServerUpdate => 0
    case DownloadComplete => 1
    case FailedDownload => 2
    case LocalUpdate => 3
  }

  /**
   * `fileActionTagToString` on the integer an enum variable holds: a name
   * for each enumerator and a fallback for any other value.
   */
  function FileActionTagToString(tag: int): (s: string)
    ensures 0 <= tag <= 2 <==> s != "INVALID_FILE_ACTION"
  {
    match tag
    case 0 => "Created"
    case 1 => "Modified"
    case 2 => "Deleted"
    case _ => "INVALID_FILE_ACTION"
  }

  /** `fileOperationTagToString`, likewise. */
  function OperationTagToString(tag: int): (s: string)
    ensures 0 <= tag <= 3 <==> s != "INVALID_OPERATION_TAG"
  {
    match tag
    case 0 => "ServerUpdate"
    case 1 => "DownloadComplete"
    case 2 => "FailedDownload"
    case 3 => "LocalUpdate"
    case _ => "INVALID_OPERATION_TAG"
  }

  /** Each enumerator gets a name of its own. */
  lemma TagNamesAreDistinct(a: FileAction, b: FileAction, s: FileOperationTag, t: FileOperationTag)
    ensures a != b ==> FileActionTagToString(FileActionOrdinal(a)) != FileActionTagToString(FileActionOrdinal(b))
    ensures s != t ==> OperationTagToString(OperationTagOrdinal(s)) != OperationTagToString(OperationTagOrdinal(t))
  {
  }

  /**
   * A `FileOperation`.  `fileAction` is set only by the `LocalUpdate`
   * factory; elsewhere it is uninitialised.
   */
  datatype FileOperation = FileOperation(tag: FileOperationTag, fileName: string, timestamp: int, fileAction: Slot<FileAction>)

  /** The constructor `FileOperation(tag)`: the clock time `now`, an empty file name. */
  function NewOperation(tag: FileOperationTag, now: int): (op: FileOperation)
    ensures op.tag == tag && op.fileName == "" && op.timestamp == now && op.fileAction.Unassigned?
  {
    FileOperation(tag, "", now, Unassigned)
  }

  /** The `LocalUpdate` factory. */
  function LocalUpdateOperation(fileName: string, fileAction: FileAction, now: int): (op: FileOperation)
    ensures op.tag == LocalUpdate && op.fileName == fileName && op.fileAction == Assigned(fileAction)
    ensures op.timestamp == now
  {
    var operation := NewOperation(LocalUpdate, now);
    operation.(fileName := fileName, fileAction := Assigned(fileAction))
  }

  /** The `ServerUpdate` factory: the given timestamp replaces the clock time. */
  function ServerUpdateOperation(fileName: string, timestamp: int, now: int): (op: FileOperation)
    ensures op.tag == ServerUpdate && op.fileName == fileName && op.timestamp == timestamp
    ensures op.fileAction.Unassigned?
  {
    var operation := NewOperation(ServerUpdate, now);
    operation.(fileName := fileName, timestamp := timestamp)
  }

  /** The clock reading taken by the constructor does not survive the `ServerUpdate` factory. */
  lemma ServerUpdateIgnoresClock(fileName: string, timestamp: int, now1: int, now2: int)
    ensures ServerUpdateOperation(fileName, timestamp, now1) == ServerUpdateOperation(fileName, timestamp, now2)
  {
  }

  /**
   * `toString(FileOperation)`: "[HH:MM:SS] <tag> <file name>", plus the file
   * action for a local update.  `timeText` formats a `time_t`; the time of
   * day is the 8 characters from offset 11, and `substr` throws when the
   * formatted text is shorter than 11 characters.
   */
  function OperationToString(op: FileOperation, timeText: int -> string): (r: Result<string, Codec.ParseError>)
    requires op.tag == LocalUpdate ==> op.fileAction.Assigned?
    ensures r.Failure? <==> |timeText(op.timestamp)| < 11
  {
    var text := timeText(op.timestamp);
    if |text| < 11 then Failure(Codec.OutOfRange)
    else
      var clock := text[11..if |text| < 19 then |text| else 19];
      var line := "[" + clock + "]" + " " + OperationTagToString(OperationTagOrdinal(op.tag)) + " " + op.fileName;
      Success(if op.tag == LocalUpdate then line + " " + FileActionTagToString(FileActionOrdinal(op.fileAction.value)) else line)
  }

  /**
   * The file action is printed only for a local update: operations that
   * differ only there print alike, so the uninitialised field is never read.
   */
  lemma OnlyLocalUpdatesPrintTheAction(op: FileOperation, fileAction: Slot<FileAction>, timeText: int -> string)
    requires op.tag != LocalUpdate
    ensures OperationToString(op, timeText) == OperationToString(op.(fileAction := fileAction), timeText)
  {
  }

  /** A local update prints its action after the file name. */
  lemma LocalUpdatePrintsTheAction(op: FileOperation, timeText: int -> string)
    requires op.tag == LocalUpdate && op.fileAction.Assigned? && |timeText(op.timestamp)| >= 11
    ensures var line := OperationToString(op, timeText).value;
            var name := FileActionTagToString(FileActionOrdinal(op.fileAction.value));
            |name| < |line| && line[|line| - |name|..] == name
  {
  }

  datatype FileStateTag = Inexistent | Downloading | Ready

  /** A client `FileState`; the default constructor and `Inexistent()` both give `Inexistent`. */
  datatype FileState = FileState(tag: FileStateTag)

  function DefaultFileState(): (s: FileState)
    ensures s.tag == Inexistent
  {
    FileState(Inexistent)
  }

  /** A download queued on the async runner: the file to ask for and where to store it. */
  datatype DownloadTask = DownloadTask(fileName: string, path: string)

  /** The next state and the downloads the transition queued. */
  datatype Transition = Transition(next: FileState, scheduled: seq<DownloadTask>)

  /** Where the client stores a synchronised file: "sync_dir_<username>/<file name>". */
  function SyncPath(username: string, fileName: string): string {
    "sync_dir_" + username + "/" + fileName
  }

  /**
   * The sync path of a file names that file, and different files of users
   * whose names hold no '/' are stored at different paths.
   */
  lemma SyncPathNamesTheFile(username: string, fileName: string, otherUser: string, otherFile: string)
    requires '/' !in fileName
    ensures PathHelpers.ExtractFilenameFromPath(SyncPath(username, fileName)) == fileName
    ensures '/' !in username && '/' !in otherUser && SyncPath(username, fileName) == SyncPath(otherUser, otherFile) ==>
              username == otherUser && fileName == otherFile
  {
    PathHelpers.DirectoryIsDropped("sync_dir_" + username, fileName);
    if '/' !in username && '/' !in otherUser && SyncPath(username, fileName) == SyncPath(otherUser, otherFile) {
      PathHelpers.JoinIsInjective("sync_dir_", username, fileName, otherUser, otherFile);
    }
  }

  /** `onServerUpdate`. */
  function OnServerUpdate(username: string, entry: FileOperation, previous: FileState): (t: Transition)
    ensures previous.tag == Inexistent ==>
              t.next.tag == Downloading && t.scheduled == [DownloadTask(entry.fileName, SyncPath(username, entry.fileName))]
    ensures previous.tag != Inexistent ==> t.next == DefaultFileState() && t.scheduled == []
  {
    if previous.tag == Inexistent then
      Transition(FileState(Downloading), [DownloadTask(entry.fileName, SyncPath(username, entry.fileName))])
    else Transition(DefaultFileState(), [])
  }

  /** `nextFileState`: only a `ServerUpdate` goes to `onServerUpdate`. */
  function NextFileState(username: string, entry: FileOperation, current: FileState): (t: Transition)
    ensures entry.tag == ServerUpdate ==> t == OnServerUpdate(username, entry, current)
    ensures entry.tag != ServerUpdate ==> t.next.tag == Inexistent && t.scheduled == []
  {
    if entry.tag == ServerUpdate then OnServerUpdate(username, entry, current)
    else Transition(FileState(Inexistent), [])
  }

  /**
   * What the code implements, as a table: the only way out of `Inexistent`
   * is a server update, which downloads once; `Ready` is never entered and
   * every other input leads to `Inexistent`.
   */
  lemma TransitionTable(username: string, entry: FileOperation, current: FileState)
    ensures var t := NextFileState(username, entry, current);
            t.next.tag != Ready &&
            (t.next.tag == Downloading <==> entry.tag == ServerUpdate && current.tag == Inexistent) &&
            |t.scheduled| == (if t.next.tag == Downloading then 1 else 0) &&
            forall task :: task in t.scheduled ==> task.fileName == entry.fileName && task.path == SyncPath(username, entry.fileName)
  {
  }

  /** The outcome of a download task once the server has answered the download request. */
  datatype DownloadRun = DownloadRun(request: Codec.Message, storedAt: Option<string>, report: FileOperation)

  /**
   * The download task: request the file; on a reply that is not Ok report
   * `FailedDownload`, otherwise store the file at the task's path and report
   * `DownloadComplete`.  The report is built by `FileOperation(tag)`, so it
   * carries no file name.
   */
  function RunDownload(task: DownloadTask, reply: Codec.Message, now: int): (run: DownloadRun)
    ensures run.request == Codec.Message.DownloadCommand(task.fileName)
    ensures Codec.IsOk(reply) <==> run.storedAt == Some(task.path)
    ensures !Codec.IsOk(reply) <==> run.storedAt == None
    ensures run.report == NewOperation(if Codec.IsOk(reply) then DownloadComplete else FailedDownload, now)
  {
    if !Codec.IsOk(reply) then DownloadRun(Codec.Message.DownloadCommand(task.fileName), None, NewOperation(FailedDownload, now))
    else DownloadRun(Codec.Message.DownloadCommand(task.fileName), Some(task.path), NewOperation(DownloadComplete, now))
  }

  /** `LocalFileStatesManager`: the per-file states and the downloads it has queued. */
  class LocalFileStatesManager {
    /** The username of the server connection, which names the sync folder. */
    const username: string
    var fileStatesByFilename: map<string, FileState>
    /** The tasks handed to the async runner, in order. */
    var scheduled: seq<DownloadTask>

    constructor(username: string)
      ensures this.username == username && fileStatesByFilename == map[] && scheduled == []
    {
      this.username := username;
      fileStatesByFilename := map[];
      scheduled := [];
    }

    /** `getFileState`: `Inexistent` for an unknown file, else the stored state. */
    function GetFileState(filename: string): (state: FileState)
      reads this
      ensures filename !in fileStatesByFilename ==> state.tag == Inexistent
      ensures filename in fileStatesByFilename ==> state == fileStatesByFilename[filename]
    {
      if filename !in fileStatesByFilename then FileState(Inexistent) else fileStatesByFilename[filename]
    }

    /** `processEntry`: stores the next state under the operation's file name only. */
    method ProcessEntry(entry: FileOperation)
      modifies this
      ensures var t := NextFileState(username, entry, old(GetFileState(entry.fileName)));
              fileStatesByFilename == old(fileStatesByFilename)[entry.fileName := t.next] &&
              scheduled == old(scheduled) + t.scheduled
    {
      var currentState := GetFileState(entry.fileName);
      var transition := NextFileState(username, entry, currentState);
      fileStatesByFilename := fileStatesByFilename[entry.fileName := transition.next];
      scheduled := scheduled + transition.scheduled;
    }
  }

  /**
   * The report of a download is filed under the empty file name, not under
   * the downloaded file, and sets that entry to `Inexistent`: the downloaded
   * file itself stays `Downloading`.
   */
  lemma DownloadReportIsFiledUnderEmptyName(username: string, task: DownloadTask, reply: Codec.Message, now: int,
                                            states: map<string, FileState>)
    ensures var report := RunDownload(task, reply, now).report;
            report.fileName == "" &&
            NextFileState(username, report, if "" in states then states[""] else FileState(Inexistent)).next.tag == Inexistent
  {
  }
}
