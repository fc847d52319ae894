# sisop-ii file synchronisation service, modelled in Dafny

The service keeps each user's `sync_dir` folder on one or more client
machines in step with a folder on the server (`out/<username>/`). Clients
and server exchange text frames `"<type ordinal>:<payload>"`. The server
reads one request per connection turn, queues it as a `FileAction`, and a
dispatcher applies each action to a per-file state machine. Each transition
decides the reply, the file transfer and when the connection is handed back
to the listener. On the client, a command line sends upload, download and
delete requests, and a subscription loop turns the server's `FileUpdate`
pushes into queued operations for a second per-file state machine.

The model covers the following:

- **Codec**: the frame codec of `src/libs/message.cpp`.
- **LegacyCodec**: the first codec (`message.cpp`).
- **PathHelpers**: the path helpers.
- **Server**: the login gate, the request loop `expectFileAction` and one
  turn of the dispatcher `processQueue`.
- **ServerFiles**: the server's file state machine, with its store in
  **FileStore**.
- **BlockingQueue** and **CommonQueues**: the two thread-safe queues and the
  queue processor, both specified against one FIFO definition in **Fifo**.
- **ClientFiles**: the client's file operations and state machine.
- **ClientSync**: the subscription loop.
- **UserCommands**: the command line.
- **Prototype** and **LegacyPrototype**: the two prototypes of the state
  machine written as tests (`src/tests/tests.cpp`, `tests.cpp`), which share
  the vocabulary of **Plans**.

Shared pieces:

- **Basics** holds `Option`, `Result` and `Slot`. `Slot` is a field that is
  `Assigned` or left uninitialised by the C++. `AsRead` gives what a
  comparison sees when it reads a slot. For an uninitialised one this is a
  parameter, `seen`, which is an enumerator or `None` (no enumerator).
- **Text** holds `find`/`rfind`, the prefix test, decimal output and `atoi`.

A task that the C++ launches with `std::async` is modelled by its plan. The
plan is the sequence of steps the task performs: waits on the previous
state's task, replies, file transfers, callback calls.

## Model

| member | source | states |
|---|---|---|
| `Codec.Ordinal` | src/libs/message.h:6-22 | Every message type has an ordinal of at most 13. |
| `Codec.TypeOfOrdinal` | src/libs/message.cpp:95 | The cast of the header value names a type exactly for 0..13, and that type's ordinal is the value. |
| `Codec.SplitFrame` | src/libs/message.cpp:91-93 | The header holds no ':'. A frame with ':' is header + ":" + payload. A frame without one is all header with an empty payload. |
| `Codec.Decode` | src/libs/message.cpp:97-165 | Decoding never yields `Empty`. It fails (out_of_range) exactly for a `FileUpdate` payload shorter than 20 or a `FileInfo` payload shorter than 60. The filename of those two kinds is the payload from offset 20, resp. 60. |
| `Codec.ParseFrame` | src/libs/message.cpp:87-168 | Once the buffer is a `std::string`: the empty frame, and only it, parses to `Empty`. Parsing fails exactly when the header reads as `FileUpdate`/`FileInfo` and the payload is too short for the timestamp fields. |
| `Codec.Parse` | src/libs/message.cpp:82-85 | The `char *` buffer is copied into a `std::string`, which ends it at its first NUL: a buffer that is empty or starts with NUL, and only such a buffer, parses to `Empty`. |
| `Codec.ParseStopsAtNul` | src/libs/message.cpp:85 | Nothing after the first NUL reaches the parser, and a NUL-free buffer is parsed whole. |
| `Codec.ToPacket` | src/libs/message.cpp:179-233 | Only `Empty` gives the empty frame. Every other message gives the frame of its decimal ordinal and its payload. |
| `Codec.HeaderOrdinal` | src/libs/message.cpp:95 | `atoi` reads back the ordinal the header was written with, and the cast gives back the type. |
| `Codec.DecodesPayload` | src/libs/message.cpp:97-165 | The case selected by a message's type rebuilds that message from its own payload. |
| `Codec.RoundTrip` | src/libs/message.cpp:179-233 | Every message other than `Empty`, `FileUpdate`, `FileInfo`, a command with an empty filename and a message whose text holds a NUL parses back to itself, with ':' allowed in payloads and any response code. |
| `Codec.CommandFilenameStopsAtNul` | src/libs/message.cpp:85 | A command whose filename holds a NUL comes back with the filename cut at it: the upload of "a\0b" arrives as the upload of "a". |
| `Codec.CommandPacket` | src/libs/message.cpp:186-200 | A command's frame is its header, ':' and the filename. |
| `Codec.EmptyFrameIsEmptyMessage` | src/libs/message.cpp:87-90 | The empty frame and the `Empty` message correspond in both directions. |
| `Codec.FileUpdateRoundTrip` | src/libs/message.cpp:112-121 | With a 19-character timestamp and no NUL in the texts, a `FileUpdate` comes back with the same filename and the time conversion of the written timestamp. |
| `Codec.FileInfoRoundTrip` | src/libs/message.cpp:99-110 | The same for `FileInfo` and its three timestamps, with the filename from offset 60. |
| `Codec.UnknownHeaderIsInvalid` | src/libs/message.cpp:159-164 | A buffer whose frame (up to its first NUL) is non-empty and whose header value is below 2 or above 13 parses to `InvalidMessage`. |
| `Codec.EmptyFilenameCommandIsInvalid` | src/libs/message.cpp:147-157 | Upload, download and delete frames with an empty filename parse to `InvalidMessage`. |
| `Codec.SplitAfterHeader` | src/libs/message.cpp:91-93 | A header free of ':' followed by ':' splits off exactly, whatever the payload. |
| `Codec.IsOkParsed` | src/libs/message.cpp:282-286 | `isOk` holds of a parsed buffer with a non-empty frame iff the header reads as `Response` and the payload reads as Ok. |
| `Codec.IsOk` | src/libs/message.cpp:282-286 | `isOk` is a `Response` carrying the Ok code; `Codec.IsOkParsed` states what this means for a received frame. |
| `LegacyCodec.Ordinal` | message.h:4-12 | The six legacy types have ordinals 0..5. |
| `LegacyCodec.HeaderValue` | message.cpp:45-48 | The header character reads as its digit value, or 0 when it is not a digit. |
| `LegacyCodec.ParseFrame` | message.cpp:45-86 | Once the buffer is a `std::string`: parsing fails exactly on buffers shorter than 2 (`substr(2)`). Upload/download filenames and data are the buffer from position 2, and a filename that comes back is never empty. |
| `LegacyCodec.Parse` | message.cpp:40-44 | The copy into a `std::string` ends the buffer at its first NUL: parsing fails exactly when the buffer is shorter than 2 or holds NUL at position 0 or 1. A filename or data that comes back is NUL-free and begins the buffer from position 2, and a filename is never empty. |
| `LegacyCodec.Frame` | message.cpp:88-112 | A sent frame has one digit (the ordinal) at position 0 and ':' at position 1. |
| `LegacyCodec.SingleDigitHeader` | message.cpp:88-112 | The decimal header of a legacy ordinal is exactly one character. |
| `LegacyCodec.RoundTrip` | message.cpp:40-86 | Every legacy message except a command with an empty filename and a message whose text holds a NUL parses back to itself. |
| `LegacyCodec.UploadFilenameStopsAtNul` | message.cpp:44 | An upload whose filename holds a NUL arrives with the filename cut at it. |
| `LegacyCodec.EmptyFilenameIsInvalid` | message.cpp:61-79 | An upload or download command with an empty filename comes back as `InvalidMessage`. |
| `LegacyCodec.ParseIgnoresSeparator` | message.cpp:45-46 | Position 1 is never read beyond the NUL cut: buffers without NUL at 1 that agree at 0 and from 2 on parse alike. |
| `LegacyCodec.UnknownTypeIsInvalid` | message.cpp:81-84 | A buffer without NUL in its first two positions whose header value has no case gives `InvalidMessage`. |
| `PathHelpers.ExtractFilenameFromPath` | src/libs/common/helpers.cpp:53-64 | The result is a '/'-free suffix of the path: the whole path when it has no '/', otherwise the text right after a '/'. |
| `PathHelpers.IsFilenameValid` | src/libs/common/helpers.cpp:66-72 | A filename is valid iff it is non-empty. |
| `PathHelpers.FilenameIsUnique` | src/libs/common/helpers.cpp:53-64 | Any suffix meeting that contract is the result: the contract determines the function. |
| `PathHelpers.SlashFreeSuffix` | src/libs/common/helpers.cpp:62-63 | No position of a '/'-free suffix holds '/'. |
| `PathHelpers.ExtractIsIdempotent` | src/libs/common/helpers.cpp:53-64 | Extracting twice equals extracting once. |
| `PathHelpers.TrailingSlashGivesEmpty` | src/libs/common/helpers.cpp:53-64 | A path ending in '/' gives the empty name. |
| `PathHelpers.DirectoryIsDropped` | src/libs/fileManager.cpp:7-18 | `dir + "/" + name` with a '/'-free name gives `name`. |
| `Fifo.Pushed` | src/libs/common/helpers.h:27-32 | The values a run of calls pushes, in push order; `Fifo.PushedKeepsOrder` and `Fifo.ReplayIsFifo` state what it means. |
| `Fifo.PushedKeepsOrder` | src/libs/common/helpers.h:27-32 | The values pushed by two runs in a row are the first run's, then the second's. |
| `Fifo.ReplaySinglePop` | src/libs/common/helpers.h:34-47 | One pop on an empty queue returns nothing and leaves it empty; otherwise it returns the front and leaves the rest. |
| `Fifo.ReplayIsFifo` | src/libs/common/helpers.h:19-48 | For any interleaving of pushes and pops, the values popped followed by those left equal the initial contents followed by the pushed values. |
| `BlockingQueue.ThreadSafeQueue.constructor` | src/libs/helpers.h:10-13 | A new queue is empty. |
| `BlockingQueue.ThreadSafeQueue.Queue` | src/libs/helpers.h:16-19 | `queue` appends at the back. |
| `BlockingQueue.ThreadSafeQueue.Pop` | src/libs/helpers.h:21-31 | `pop` returns the front, and the front followed by the new contents is the old contents. |
| `CommonQueues.ThreadSafeQueue.constructor` | src/libs/common/helpers.h:19-24 | A new queue is empty. |
| `CommonQueues.ThreadSafeQueue.Queue` | src/libs/common/helpers.h:27-32 | `queue` appends at the back. |
| `CommonQueues.ThreadSafeQueue.Pop` | src/libs/common/helpers.h:34-47 | `pop` gives nullopt and no change on an empty queue, else the removed front. This is the single-pop step of `Fifo.Replay`. |
| `CommonQueues.QueueProcessor.constructor` | src/libs/common/helpers.h:78-85 | A new processor has an empty queue, has processed nothing and is not exiting. |
| `CommonQueues.QueueProcessor.Queue` | src/libs/common/helpers.h:93-96 | `queue` forwards to the queue's back. |
| `CommonQueues.QueueProcessor.Stop` | src/libs/common/helpers.h:87-91 | `stop` raises the exit flag and processes nothing. |
| `CommonQueues.QueueProcessor.RunIterations` | src/libs/common/helpers.h:57-72 | Once stopped, nothing is processed. Otherwise n turns process the first min(n, size) queued entries, in queue order, and leave the rest queued. |
| `ServerFiles.Empty` | src/libs/fileManager.h:57-62 | `FileState::Empty()` is tagged empty and sets nothing else. |
| `ServerFiles.ExactlyOneStatePredicate` | src/libs/fileManager.h:52-55 | Exactly one `is...State` predicate holds of an assigned tag. |
| `ServerFiles.FilePath` | src/libs/fileManager.cpp:90 | The path "out/<user>/<name>" of an action's file. `ServerFiles.FilePathNamesTheFile` and `ServerFiles.FilePathsAreDistinct` state its contract. |
| `ServerFiles.FilePathNamesTheFile` | src/libs/fileManager.cpp:90 | The name extracted from a file's path, as a client extracts names for upload, is the name the file is stored under (for a name without '/'). |
| `ServerFiles.FilePathsAreDistinct` | src/libs/fileManager.cpp:90 | Two actions of users whose names hold no '/' share a path only if they name the same user and file. |
| `ServerFiles.UploadCommand` | src/libs/fileManager.cpp:67-96 | An upload tags the file `Updating` and sets its update time. Creation and access times are set only when the previous tag reads as empty or deleting. Its task is the upload plan. |
| `ServerFiles.DeleteCommand` | src/libs/fileManager.cpp:98-135 | A delete tags the file `Deleting` unless the previous tag reads as empty, when the tag stays unset. Its task is the delete plan. |
| `ServerFiles.ReadCommand` | src/libs/fileManager.cpp:137-191 | A read tags the file `Reading` and sets its access time unless the previous tag reads as empty or deleting, when both stay unset. Its task is the read plan. |
| `ServerFiles.GetNextState` | src/libs/fileManager.cpp:193-213 | Each action type goes to its transition, which reads the last state's tag once. |
| `ServerFiles.UploadPlan` | src/libs/fileManager.cpp:80-93 | The upload task's steps. `ServerFiles.UploadPlanProperties` states its contract. |
| `ServerFiles.DeletePlan` | src/libs/fileManager.cpp:108-132 | The delete task's steps. `ServerFiles.DeletePlanProperties` states its contract. |
| `ServerFiles.ReadPlan` | src/libs/fileManager.cpp:148-188 | The read task's steps. `ServerFiles.ReadPlanProperties` states its contract for every enumerator, and `ServerFiles.GetNextStateFollowsTable` for a tag with none. |
| `ServerFiles.UploadPlanProperties` | src/libs/fileManager.cpp:80-93 | Whatever the previous tag reads as: the upload task completes once, at the end. It replies Ok exactly once before touching the file, waits before any access, and waits iff the file was not empty. It receives the file into the user's path and touches no other path. |
| `ServerFiles.DeletePlanProperties` | src/libs/fileManager.cpp:108-132 | Whatever the previous tag reads as: an empty or deleted file is answered FileNotFound and no file is touched. Any other file is answered Ok and removed. The task completes once and waits iff the file was not empty. |
| `ServerFiles.ReadPlanProperties` | src/libs/fileManager.cpp:148-188 | For every enumerator the previous tag reads as: an empty or deleted file is answered FileNotFound without touching it, a file being read or updated is answered Ok and sent, the task completes once, and it waits before any access unless the file was being read. |
| `ServerFiles.ReadAfterReadOverlaps` | src/libs/fileManager.cpp:167-186 | A read after a read sends the file before waiting on the previous read. |
| `ServerFiles.GetNextStateFollowsTable` | src/libs/fileManager.cpp:193-213 | For every reading of the previous tag, the resulting tag follows the table `TableTag`, and the task completes once unless the action is a read and the tag holds no enumerator. |
| `FileStore.UserFiles.constructor` | src/libs/fileManager.h:65-69 | A new `UserFiles` holds no states. |
| `FileStore.UserFiles.Get` | src/libs/fileManager.h:70-78 | `get` gives the stored state, or `Empty()` for an unknown file. |
| `FileStore.UserFiles.Update` | src/libs/fileManager.h:80-83 | `update` stores the state under the name, and every other file reads as before. |
| `FileStore.LookupOrEmpty` | src/libs/fileManager.h:70-78 | An unknown user or file reads as `Empty()`. |
| `FileStore.FilesManager.constructor` | src/libs/fileManager.h:86-88 | A new manager knows no users. |
| `FileStore.FilesManager.GetFiles` | src/libs/fileManager.h:91-101 | `getFiles` returns the user's object, or records a fresh empty one. No other user changes, and distinct users never share an object. |
| `Server.LoginGate` | src/server.cpp:97-116 | A connection is accepted iff its first message is `Login`. Then the reply is Ok, the folder is "out/<username>/" and the session carries that username. |
| `Server.ActionsStayInLoginFolder` | src/server.cpp:107-114 | The path an action names, as a string, begins with the folder made at login. Names are only checked for emptiness, so "../x" still leads out of it. |
| `Server.ClassifyRequest` | src/server.cpp:128-157 | Upload, download and delete requests map to Upload, Read and Delete, in both directions. |
| `Server.Listening` | src/server.cpp:122-161 | Listening reports at most one message per frame received. |
| `Server.ListeningCharacterised` | src/server.cpp:128-157 | The reported messages are exactly the leading frames that parsed to neither a request nor `Empty`. The next frame decides the outcome: a request becomes an action with its filename and timestamp, `Empty` closes, and a frame `Parse` throws on aborts the loop. |
| `Server.ExpectFileAction` | src/server.cpp:122-161 | The loop computes `Listening` and queues exactly the action it returns, or nothing (also when a parse failure aborts it). |
| `Server.SkipUnhandled` | src/server.cpp:151-156 | Skipping an unhandled message moves it into the reported prefix. |
| `Server.Dispatch` | src/server.cpp:48-60 | One dispatcher turn on the store. `Server.DispatchChangesOneFile` and `Server.DispatchRestartsSession` state its contract. |
| `Server.DispatchChangesOneFile` | src/server.cpp:48-60 | The action's file gets the next state computed from its previous state (or `Empty()`), with a callback that restarts the session. Every other entry is unchanged. |
| `Server.DispatchRestartsSession` | src/server.cpp:54-57 | The stored task ends by restarting listening on the action's session, calling nothing else back, exactly unless the action is a read and the previous tag holds no enumerator. |
| `Server.ProcessQueueStep` | src/server.cpp:44-62 | One turn pops the front action and leaves the store as `Dispatch` of the old store. |
| `Server.Record` | src/server.cpp:60 | The final assignment changes only that user's entry of the store: the file gets the new state. |
| `ClientFiles.FileActionTagToString` | src/libs/client/fileState.cpp:3-17 | A name for each of the three enumerators, and "INVALID_FILE_ACTION" exactly for other values. |
| `ClientFiles.OperationTagToString` | src/libs/client/fileState.cpp:19-35 | Likewise for the four operation tags. |
| `ClientFiles.TagNamesAreDistinct` | src/libs/client/fileState.cpp:3-35 | Distinct enumerators get distinct names. |
| `ClientFiles.NewOperation` | src/libs/client/client.h:39-43 | A new operation has the tag, the clock time and an empty file name. |
| `ClientFiles.LocalUpdateOperation` | src/libs/client/client.h:45-51 | A local update carries file name, action and clock time. |
| `ClientFiles.ServerUpdateOperation` | src/libs/client/client.h:53-59 | A server update carries the pushed file name and timestamp and leaves the action unset. |
| `ClientFiles.ServerUpdateIgnoresClock` | src/libs/client/client.h:53-59 | The constructor's clock reading does not survive the factory. |
| `ClientFiles.OperationToString` | src/libs/client/fileState.cpp:37-50 | Formatting fails (substr out of range) exactly when the formatted time is shorter than 11 characters. |
| `ClientFiles.OnlyLocalUpdatesPrintTheAction` | src/libs/client/fileState.cpp:44-47 | Only a local update's text depends on its action, so an unset action is never read. |
| `ClientFiles.LocalUpdatePrintsTheAction` | src/libs/client/fileState.cpp:44-47 | A local update's text ends with its action's name. |
| `ClientFiles.DefaultFileState` | src/libs/client/client.h:71-90 | A default client file state is `Inexistent`. |
| `ClientFiles.SyncPath` | src/libs/client/fileState.cpp:64 | The path "sync_dir_<user>/<name>" of a downloaded file. `ClientFiles.SyncPathNamesTheFile` states its contract. |
| `ClientFiles.SyncPathNamesTheFile` | src/libs/client/fileState.cpp:64 | The name extracted from a sync path is the file's name (for a name without '/'), and different files of users whose names hold no '/' get different paths. |
| `ClientFiles.OnServerUpdate` | src/libs/client/fileState.cpp:62-94 | An update for an `Inexistent` file moves it to `Downloading` and schedules one download into the sync path. Any other file goes back to `Inexistent` with nothing scheduled. |
| `ClientFiles.NextFileState` | src/libs/client/fileState.cpp:52-60 | Only `ServerUpdate` goes to `onServerUpdate`. Every other operation leads to `Inexistent`. |
| `ClientFiles.TransitionTable` | src/libs/client/fileState.cpp:52-94 | `Ready` is never entered, and `Downloading` is entered iff a server update meets an `Inexistent` file. Exactly then one download of that file into its sync path is scheduled. |
| `ClientFiles.RunDownload` | src/libs/client/fileState.cpp:72-90 | The task requests the file. It stores the file iff the reply is Ok, and reports `DownloadComplete` or `FailedDownload` accordingly. |
| `ClientFiles.LocalFileStatesManager.constructor` | src/libs/client/client.h:120-126 | A new manager holds no states and has scheduled nothing. |
| `ClientFiles.LocalFileStatesManager.GetFileState` | src/libs/client/client.h:98-106 | An unknown file is `Inexistent`, and a known one has its stored state. |
| `ClientFiles.LocalFileStatesManager.ProcessEntry` | src/libs/client/client.h:111-117 | Only the entry's file gets the next state, and the transition's downloads are appended to the schedule. |
| `ClientFiles.DownloadReportIsFiledUnderEmptyName` | src/libs/client/fileState.cpp:81-89 | A download's report carries the empty file name, so it resets the "" entry and not the downloaded file. |
| `ClientSync.Synchronization` | src/libs/client/client.h:136-173 | The process exits iff the subscription is not answered Ok. Otherwise it sends `SubscribeUpdates`, then `Start`, then the loop's replies. |
| `ClientSync.Subscription` | src/libs/client/client.h:151-169 | The subscription loop on the pushed messages. `ClientSync.SubscriptionCharacterised` states its contract. |
| `ClientSync.SubscriptionCharacterised` | src/libs/client/client.h:151-169 | The loop never exits the process. The leading `FileUpdate`s are each queued as a `ServerUpdate` with their file name and timestamp and answered Ok, in order. The next message ends the loop: `EndCommand` quietly, anything else with a report. |
| `ClientSync.Synchronize` | src/libs/client/client.h:136-173 | The loop sends what `Synchronization` says and appends its operations to the local queue. |
| `UserCommands.Parameter` | src/libs/client/userCommands.cpp:16-17 | The parameter is the text after the first space, or the whole input when there is none. |
| `UserCommands.Parse` | src/libs/client/userCommands.cpp:9-55 | A recognised command carries the parameter. An unrecognised one is `InvalidCommand` carrying the whole input. |
| `UserCommands.FirstMatch` | src/libs/client/userCommands.cpp:19-52 | Gives no index iff no command word starts the input, and otherwise the first one that does. |
| `UserCommands.ParseIsFirstMatch` | src/libs/client/userCommands.cpp:19-54 | The command type is that of the first command word, in table order, that starts the input, or `InvalidCommand` when none does. |
| `UserCommands.PrefixNotWord` | src/libs/client/userCommands.cpp:11-14 | Matching is by prefix: any word that starts with "upload", then a space and `rest`, is an upload of `rest` (so "uploadx a" uploads "a"). |
| `UserCommands.ParameterAfterWord` | src/libs/client/userCommands.cpp:16-17 | The parameter of a word without spaces, a space and `rest` is `rest`, whatever spaces `rest` holds. |
| `UserCommands.UploadCommand` | src/libs/client/userCommands.cpp:57-96 | An empty path and an unopenable file are reported without sending. Otherwise the bare file name is sent, and the file is streamed iff the reply is Ok. |
| `UserCommands.EmptyUploadPathSendsNothing` | src/libs/client/userCommands.cpp:60-68 | An empty path sends nothing. |
| `UserCommands.UploadSendsBareFilename` | src/libs/client/userCommands.cpp:85-93 | The request for "dir/name" names only "name". |
| `UserCommands.DownloadCommand` | src/libs/client/userCommands.cpp:98-119 | An invalid filename sends nothing. Otherwise the request is sent and the file is received iff the reply is Ok. |
| `UserCommands.DeleteCommand` | src/libs/client/userCommands.cpp:121-161 | An invalid filename sends nothing. `Start` is sent iff the reply is Ok, and "deleted" is printed iff both replies are Ok. |
| `UserCommands.FileNotFoundStopsDelete` | src/libs/client/userCommands.cpp:135-142 | A FileNotFound answer ends the command before `Start`. |
| `Plans.Calls` | src/tests/tests.cpp:30-82 | The callback calls of a plan, in plan order: each is a call step. |
| `Plans.CallsKeepOrder` | src/tests/tests.cpp:30-82 | The calls of two plans in a row are the first plan's, then the second's. |
| `Plans.CallIsInPlan` | src/tests/tests.cpp:30-82 | The first call of a plan occurs in it. |
| `Plans.CallsCoverPlan` | src/tests/tests.cpp:30-82 | Every call step of a plan is among its calls. |
| `Prototype.CreateState` | src/tests/tests.cpp:96-116 | `Create` tags `Updating`, keeps each callback in its own role despite the parameter order, and runs `createFile` with the name and connection. |
| `Prototype.Derived` | src/tests/tests.cpp:118-126 | The derived state copies the name and all four callbacks and sets no tag. |
| `Prototype.ExecuteOperation` | src/tests/tests.cpp:30-82 | Every call uses the new state's name and the connection. |
| `Prototype.NextTag` | src/tests/tests.cpp:132-151 | Delete (or read after delete) gives `Deleting`, any other read gives `Reading`, and create and update give `Updating`. |
| `Prototype.Execute` | src/tests/tests.cpp:128-161 | The new state keeps the name and callbacks, takes `NextTag` and runs the plan for the operation, both computed from the last tag as read. |
| `Prototype.PlanTable` | src/tests/tests.cpp:30-82 | For every enumerator the last tag reads as: at most one callback is called (the one `CalledRole` names), every operation but Create waits exactly once, a stop is requested first iff an update or delete follows an update, and calls follow the wait except for a read after a read. |
| `Prototype.UpdatePlan` | src/tests/tests.cpp:33-48 | The update row of the plan table. |
| `Prototype.ReadPlan` | src/tests/tests.cpp:50-64 | The read row of the plan table. |
| `Prototype.DeletePlan` | src/tests/tests.cpp:66-81 | The delete row of the plan table. |
| `Prototype.CreateCompletesFirst` | src/tests/tests.cpp:202-269 | A read or an update after `Create` calls the callback given to `Create` for that role, with the same name and connection, after waiting on the create. |
| `LegacyPrototype.Initial` | tests.cpp:112-117 | The three-callback constructor stores the callbacks and sets nothing else. |
| `LegacyPrototype.DerivedAsWritten` | tests.cpp:119-122 | As written, the derived state keeps `readFile` only. |
| `LegacyPrototype.Derived` | tests.cpp:119-122 | As intended, the derived state keeps all three callbacks. |
| `LegacyPrototype.ExecuteOperation` | tests.cpp:37-101 | Every call uses the new state's name and the connection. |
| `LegacyPrototype.PlanTable` | tests.cpp:37-101 | For every enumerator the last tag reads as: exactly the operation's callback is called. After `Created` it runs at once, after `Reading` it waits (a read only afterwards), and after `Updating` it requests a stop and waits first. |
| `LegacyPrototype.Started` | tests.cpp:124-142 | The new state takes the last name and the given tag and runs the operation's plan. |
| `LegacyPrototype.UpdateAsWritten` | tests.cpp:124-132 | `Update` keeps the name and tags `Updating`. |
| `LegacyPrototype.ReadAsWritten` | tests.cpp:134-142 | `Read` keeps the name and tags `Reading`. |
| `LegacyPrototype.UpdateState` | tests.cpp:124-132 | With the intended derived state, `Update` also keeps all three callbacks. |
| `LegacyPrototype.ReadState` | tests.cpp:134-142 | Likewise for `Read`. |
| `LegacyPrototype.UpdateAsWrittenCallsEmptyWrite` | tests.cpp:119-132 | As written, every update of a state whose tag reads as an enumerator calls an empty `writeFile`. |
| `LegacyPrototype.DerivedStatesKeepCallbacks` | tests.cpp:119-142 | With the intended constructor, updates and reads call the callbacks the first state held and never an empty one. |
| `LegacyPrototype.ReadAfterCreatedCallsReadFile` | tests.cpp:162-179 | A read after a `Created` state calls its `readFile` alone, both as written and as intended. |
| `Text.IndexOf` | src/libs/message.cpp:91 | `find` gives -1 iff the character is absent, else its first position. |
| `Text.CString` | src/libs/message.cpp:85 | The `std::string` made from a `char *` is the NUL-free prefix that ends at the first NUL or at the end of the buffer. |
| `Text.CStringStopsAtNul` | src/libs/message.cpp:85 | A NUL-free buffer is copied whole, and a NUL and whatever follows it are lost. |
| `Text.CStringIsUnique` | src/libs/message.cpp:85 | Any NUL-free prefix that reaches a NUL or the end is the copy: the contract determines the function. |
| `Text.CStringOfConcat` | message.cpp:44 | A NUL-free head is kept, and the copy continues as the copy of the rest. |
| `Text.LastIndexOf` | src/libs/common/helpers.cpp:62 | `rfind` gives -1 iff the character is absent, else its last position. |
| `Text.AtoiOfIntToString` | src/libs/message.cpp:95 | `atoi` reads back a written integer, whatever non-digit text follows. |

## Left out

- Socket I/O is not modelled: `Listen`, `Reply`, `send`, and the byte streaming of `sendFile`, `downloadFile` and `deleteFile`. Messages and file transfers appear as values and plan steps. `src/libs/socket.cpp` is not part of this model.
- `src/libs/common/message.h` (the client's message class and `ServerConnection`) is not part of this model. The client modules use the server's codec, whose frame format it shares.
- Concurrency is not modelled: `std::async` tasks, the async runner, mutexes, sleeps and the background threads. A task is its plan of steps, and a blocking `pop` is a precondition.
- `toString(time_t)` and `toTimeT` depend on the local time zone. They are function parameters, and the fixed 19-character width is a precondition of the timestamp round trips.
- `Codec.Parse`: `atoi` overflow is undefined in C and is not modelled. Integers are unbounded.
- The file watcher (`fileWatcher.cpp`), the `main` functions, `mkdir`, logging, colours and `panic` output are left out. They are I/O.
- `listServerCommand`, `list_client` and `get_sync_dir` are parsed but not run. Their work is a display loop over socket reads.
- `ServerFiles.GetNextState`: the closing `throw` of `getNextState` is unreachable with three action types, so it is not modelled.
- `ServerFiles.GetNextState`, `Server.Dispatch`, `Server.ProcessQueueStep`, `Prototype.Execute` and `LegacyPrototype.Started`: a tag the C++ never set is indeterminate, and reading it is undefined behaviour. The model does not decide what it reads as: each of these takes it as the parameter `seen`. The server's properties hold for every value of `seen`, with the `None` case stated as it is (see Findings). The model reads the tag once per transition, so it does not capture a reading that differs between the transition and its task.
- `Server.LoginGate` takes the parsed first message. A first frame that `Parse` throws on ends `main` with the exception, which is not modelled.
- `Server.ExpectFileAction` and `ClientSync.Synchronize` run on a finite list of received messages. Running out of messages is an outcome of its own (`StillListening`, `AwaitingMessage`) where the C++ would block.
- `CommonQueues.QueueProcessor.RunIterations` runs a given number of loop turns where the C++ loops until stopped.
- `UserCommands.DeleteCommand`: only a `Response` carrying FileNotFound counts as not found. The C++ reads the response field of any reply, which is uninitialised for other message kinds.
- `ClientFiles.OperationToString` requires a local update to carry its action. All three factories and the constructor leave that field unset otherwise, and only the `LocalUpdate` factory sets it.
- Undefined behaviour is not modelled: `c_str()` of a temporary, the `malloc`'d `UserFiles`, and the prototypes' pointer `&fs` to a local that is returned by value while its task still runs. The model gives each task the new state's values.
- In the legacy codec, `atoi` is applied to the address of a single character. The model reads that character's digit.
- The client `FileState` tag `Ready` is never assigned by the code. `ClientFiles.TransitionTable` states this rather than modelling a transition to it.
- Where the specification describes a full client state machine (`Ready` after a download, local updates uploaded), the model follows the code. In the code only a server update for an unknown file does anything, and a download's report is filed under the empty file name.

## Findings

| source | as written | input that shows it | evidently intended | confidence | as-written member | corrected member |
|---|---|---|---|---|---|---|
| src/libs/fileManager.cpp:100-105 | `deleteCommand` leaves the new state's tag unset when the file is empty (and `readCommand` does the same for an empty or deleting file, src/libs/fileManager.cpp:139-145). The next action on that file reads an indeterminate tag, and `readCommand`'s task (src/libs/fileManager.cpp:148-188) matches none of its branches when the tag holds no enumerator. | `delete f` for a user without `f`, then `download f` on a build where the stored tag holds no enumerator: no reply is sent and `onComplete` never runs, so the server never listens on that session again. | Every transition leaves a tag. A state the source leaves untagged keeps the previous tag, so an empty file stays `EmptyFile` and a file being deleted stays `Deleting`. | not executed | `Server.DeleteThenReadNeverRestarts` | `Server.IntendedDispatchRestartsSession` |
| tests.cpp:119-122 | The derived-state constructor copies `readFile` only, leaving `writeFile` and `deleteFile` empty. | A state built with three callbacks and tagged `Created`, then `FileState::Update(&state, c)`: the task calls the empty `writeFile`, which throws `std::bad_function_call`. | Copy all three callbacks, as the later prototype (src/tests/tests.cpp:118-126) does. | not executed | `LegacyPrototype.UpdateAsWrittenCallsEmptyWrite` | `LegacyPrototype.DerivedStatesKeepCallbacks` |
