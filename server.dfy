/**
 * The server's sequential decisions (src/server.cpp): the login gate of
 * `main`, the per-session loop `expectFileAction` that turns a request
 * into a queued `FileAction`, and one turn of the dispatcher
 * `processQueue` that applies the next action to the store.
 */
module Server {
  import opened Basics
  import Codec
  import opened ServerFiles
  import opened FileStore
  import BlockingQueue

  /** What `main` does with the first message of a new connection. */
  datatype LoginOutcome =
    | Rejected
    | Accepted(reply: Codec.Message, folder: string, session: Session)

  /**
   * The login gate: a first message that is not `Login` closes the
   * connection; a `Login` is answered Ok, the user's folder is
   * "out/<username>/" and a session is started.
   */
  function LoginGate(login: Codec.Message, clientId: int, socket: int): (r: LoginOutcome)
    ensures r.Accepted? <==> login.Login?
    ensures r.Accepted? ==>
              Codec.IsOk(r.reply) && r.session == Session(clientId, socket, login.username) &&
              r.folder == "out/" + login.username + "/"
  {
    if !login.Login? then Rejected
    else Accepted(Codec.Message.Response(Codec.ResponseOk), "out/" + login.username + "/", Session(clientId, socket, login.username))
  }

  /**
   * Every path a logged-in user's actions name begins with the folder made
   * at login.  This is a fact about the string only: the name is checked
   * for emptiness alone, so a name such as "../other/f" still names a file
   * outside that folder.
   */
  lemma ActionsStayInLoginFolder(login: Codec.Message, clientId: int, socket: int, action: FileAction)
    requires LoginGate(login, clientId, socket).Accepted?
    requires action.session == LoginGate(login, clientId, socket).session
    ensures FilePath(action) == LoginGate(login, clientId, socket).folder + action.filename
  {
  }

  /**
   * What `Message::Listen` yields for one frame: the parsed message, or the
   * `std::out_of_range` that `Message::Parse` throws; with the clock time
   * the message was built at.
   */
  datatype Received = Received(message: Result<Codec.Message, Codec.ParseError>, timestamp: int)

  /** The action type a request message asks for; `None` for every other message. */
  function ClassifyRequest(m: Codec.Message): (r: Option<FileActionType>)
    ensures r == Some(Upload) <==> m.UploadCommand?
    ensures r == Some(Read) <==> m.DownloadCommand?
    ensures r == Some(Delete) <==> m.DeleteCommand?
  {
    match m
    case UploadCommand(_) => Some(Upload)
    case DownloadCommand(_) => Some(Read)
    case DeleteCommand(_) => Some(Delete)
    case _ => None
  }

  /**
   * How a run of `expectFileAction` ends: an action was queued, the
   * connection ended (`Empty`, and the socket is closed), a frame failed to
   * parse and the exception left the loop (nothing queued, the socket left
   * open), or the messages at hand ran out and the loop is still listening.
   */
  datatype ListenOutcome = Queued(action: FileAction) | Closed | Aborted | StillListening

  /**
   * The outcome of listening to `inbound`, together with the messages that
   * were reported with `panic` on the way.  Messages that are neither
   * requests nor `Empty` are reported and skipped; the first request is
   * turned into an action with the message's filename and timestamp.
   */
  function Listening(session: Session, inbound: seq<Received>): (r: (ListenOutcome, seq<Codec.Message>))
    ensures |r.1| <= |inbound|
  {
    if inbound == [] then (StillListening, [])
    else if inbound[0].message.Failure? then (Aborted, [])
    else
      var m := inbound[0].message.value;
      match ClassifyRequest(m)
      case Some(t) => (Queued(FileAction(session, m.filename, t, inbound[0].timestamp)), [])
      case None =>
        if m.Empty? then (Closed, [])
        else
          var rest := Listening(session, inbound[1..]);
          (rest.0, [m] + rest.1)
  }

  /**
   * What listening means: the reported messages are exactly the leading
   * frames that parsed to neither a request nor `Empty`; the frame right
   * after them decides the outcome: a request gives an action carrying its
   * filename and timestamp, `Empty` closes, and a parse failure aborts.
   */
  lemma {:induction false} ListeningCharacterised(session: Session, inbound: seq<Received>)
    ensures var r := Listening(session, inbound);
            (forall k :: 0 <= k < |r.1| ==>
               inbound[k].message == Success(r.1[k]) && ClassifyRequest(r.1[k]).None? && !r.1[k].Empty?) &&
            (r.0.Queued? ==>
               |r.1| < |inbound| && inbound[|r.1|].message.Success? &&
               ClassifyRequest(inbound[|r.1|].message.value) == Some(r.0.action.actionType) &&
               r.0.action == FileAction(session, inbound[|r.1|].message.value.filename, r.0.action.actionType,
                                        inbound[|r.1|].timestamp)) &&
            (r.0.Closed? ==> |r.1| < |inbound| && inbound[|r.1|].message == Success(Codec.Message.Empty)) &&
            (r.0.Aborted? <==> |r.1| < |inbound| && inbound[|r.1|].message.Failure?) &&
            (r.0.StillListening? <==> |r.1| == |inbound|)
  {
    if inbound != [] && inbound[0].message.Success? {
      var m := inbound[0].message.value;
      if ClassifyRequest(m).None? && !m.Empty? {
        ListeningCharacterised(session, inbound[1..]);
        var rest := Listening(session, inbound[1..]);
        assert Listening(session, inbound) == (rest.0, [m] + rest.1);
        assert forall k :: 1 <= k <= |rest.1| ==> inbound[k] == inbound[1..][k - 1];
      }
    }
  }

  /**
   * `expectFileAction` on the messages `inbound`: queues at most one action,
   * and returns as soon as it has.
   */
  method ExpectFileAction(session: Session, inbound: seq<Received>, queue: BlockingQueue.ThreadSafeQueue<FileAction>)
    returns (outcome: ListenOutcome, panicked: seq<Codec.Message>)
    modifies queue
    ensures (outcome, panicked) == Listening(session, inbound)
    ensures outcome.Queued? ==> queue.queued == old(queue.queued) + [outcome.action]
    ensures !outcome.Queued? ==> queue.queued == old(queue.queued)
  {
    var i := 0;
    panicked := [];
    assert inbound[i..] == inbound;
    assert panicked + Listening(session, inbound).1 == Listening(session, inbound).1;
    while i < |inbound|
      invariant 0 <= i <= |inbound|
      invariant queue.queued == old(queue.queued)
      invariant Listening(session, inbound) ==
                (Listening(session, inbound[i..]).0, panicked + Listening(session, inbound[i..]).1)
    {
      var received := inbound[i];
      assert inbound[i..][0] == received;
      if received.message.Failure? {
        outcome := Aborted;
        assert panicked + [] == panicked;
        return;
      }
      var message := received.message.value;
      var request := ClassifyRequest(message);
      if request.Some? {
        var action := FileAction(session, message.filename, request.value, received.timestamp);
        queue.Queue(action);
        outcome := Queued(action);
        assert Listening(session, inbound[i..]) == (outcome, []);
        assert panicked + [] == panicked;
        return;
      }
      if message.Empty? {
        outcome := Closed;
        assert panicked + [] == panicked;
        return;
      }
      SkipUnhandled(session, inbound, i, panicked);
      panicked := panicked + [message];
      i := i + 1;
    }
    assert inbound[i..] == [] && panicked + [] == panicked;
    outcome := StillListening;
  }

  /** Skipping a message that is neither a request nor `Empty` moves it into the reported prefix. */
  lemma SkipUnhandled(session: Session, inbound: seq<Received>, i: nat, panicked: seq<Codec.Message>)
    requires i < |inbound| && inbound[i].message.Success?
    requires ClassifyRequest(inbound[i].message.value).None? && !inbound[i].message.value.Empty?
    ensures var here, next := Listening(session, inbound[i..]), Listening(session, inbound[i + 1..]);
            (here.0, panicked + here.1) == (next.0, (panicked + [inbound[i].message.value]) + next.1)
  {
    var m := inbound[i].message.value;
    assert inbound[i..][0] == inbound[i] && inbound[i..][1..] == inbound[i + 1..];
    var next := Listening(session, inbound[i + 1..]);
    assert Listening(session, inbound[i..]) == (next.0, [m] + next.1);
    assert panicked + ([m] + next.1) == (panicked + [m]) + next.1;
  }

  /**
   * The store after the dispatcher has applied `action`: the user's file
   * gets the next state computed from its previous one (or from the empty
   * state), with a completion callback that restarts listening on the
   * action's session.  `seen` is what the previous state's tag reads as if
   * it was never set.
   */
  function Dispatch(store: map<string, map<string, FileState>>, action: FileAction, seen: Option<FileStateTag>)
    : map<string, map<string, FileState>>
  {
    var user, name := action.session.username, action.filename;
    var files := if user in store then store[user] else map[];
    store[user := files[name := GetNextState(LookupOrEmpty(store, user, name), seen, action, StartListening(action.session))]]
  }

  /**
   * Dispatching changes one entry: the action's file, which is recorded
   * (with its user) if it was not yet.  Every other file reads as before.
   */
  lemma DispatchChangesOneFile(store: map<string, map<string, FileState>>, action: FileAction, seen: Option<FileStateTag>)
    ensures var next, user, name := Dispatch(store, action, seen), action.session.username, action.filename;
            user in next && name in next[user] &&
            next[user][name] == GetNextState(LookupOrEmpty(store, user, name), seen, action, StartListening(action.session)) &&
            (forall u, f :: u != user || f != name ==> LookupOrEmpty(next, u, f) == LookupOrEmpty(store, u, f)) &&
            next.Keys == store.Keys + {user} &&
            (forall u :: u in store && u != user ==> next[u] == store[u]) &&
            (user in store ==> next[user].Keys == store[user].Keys + {name})
  {
  }

  /**
   * The task stored for the action ends by restarting listening on the
   * session the action came from, and calls nothing else back, unless the
   * action is a read and the previous tag, never set, holds no enumerator.
   */
  lemma DispatchRestartsSession(store: map<string, map<string, FileState>>, action: FileAction, seen: Option<FileStateTag>)
    ensures var state := Dispatch(store, action, seen)[action.session.username][action.filename];
            var previous := AsRead(LookupOrEmpty(store, action.session.username, action.filename).tag, seen);
            state.operation.Assigned? &&
            (CompletesOnce(state.operation.value, StartListening(action.session)) <==>
             !(action.actionType == Read && previous.None?))
  {
    GetNextStateFollowsTable(LookupOrEmpty(store, action.session.username, action.filename), seen, action,
                             StartListening(action.session));
  }

  /**
   * As written: a delete of a file the user does not have stores a state
   * whose tag is never set.  When that tag holds no enumerator, a download
   * of the same file then gets a task that sends no reply and never
   * restarts listening on the session.
   */
  lemma DeleteThenReadNeverRestarts(store: map<string, map<string, FileState>>, delete: FileAction, read: FileAction,
                                    seen: Option<FileStateTag>)
    requires delete.actionType == Delete && read.actionType == Read
    requires read.session.username == delete.session.username && read.filename == delete.filename
    requires LookupOrEmpty(store, delete.session.username, delete.filename) == Empty()
    ensures var after := Dispatch(store, delete, seen);
            LookupOrEmpty(after, delete.session.username, delete.filename).tag.Unassigned? &&
            Dispatch(after, read, None)[read.session.username][read.filename].operation == Assigned([])
  {
    var after := Dispatch(store, delete, seen);
    DispatchChangesOneFile(store, delete, seen);
    assert LookupOrEmpty(after, delete.session.username, delete.filename).tag.Unassigned?;
  }

  /** Every state in the store has a tag. */
  ghost predicate AllTagged(store: map<string, map<string, FileState>>) {
    forall u, f :: u in store && f in store[u] ==> store[u][f].tag.Assigned?
  }

  /** `processQueue` with the intended transition: a state is never left untagged. */
  function IntendedDispatch(store: map<string, map<string, FileState>>, action: FileAction)
    : map<string, map<string, FileState>>
    requires AllTagged(store)
  {
    var user, name := action.session.username, action.filename;
    var files := if user in store then store[user] else map[];
    store[user := files[name := IntendedNextState(LookupOrEmpty(store, user, name), action, StartListening(action.session))]]
  }

  /**
   * With the intended transition the store stays tagged, and every action's
   * task, a read after a delete included, ends by restarting listening on
   * its session.
   */
  lemma IntendedDispatchRestartsSession(store: map<string, map<string, FileState>>, action: FileAction)
    requires AllTagged(store)
    ensures var next := IntendedDispatch(store, action);
            AllTagged(next) &&
            var state := next[action.session.username][action.filename];
            state.operation.Assigned? && CompletesOnce(state.operation.value, StartListening(action.session))
  {
    var last := LookupOrEmpty(store, action.session.username, action.filename);
    IntendedNextStateCompletes(last, action, StartListening(action.session));
  }

  /**
   * One turn of the loop of `processQueue`; `seen` is what the popped
   * file's previous tag reads as if it was never set.
   */
  method ProcessQueueStep(queue: BlockingQueue.ThreadSafeQueue<FileAction>, manager: FilesManager,
                          seen: Option<FileStateTag>)
    returns (action: FileAction)
    requires queue.queued != []
    requires manager.Valid()
    modifies queue, manager, manager.userFilesByUsername.Values
    ensures manager.Valid()
    ensures [action] + queue.queued == old(queue.queued)
    ensures manager.Store() == Dispatch(old(manager.Store()), action, seen)
  {
    action := queue.Pop();
    var user, name := action.session.username, action.filename;
    ghost var before := manager.Store();
    assert before == old(manager.Store());
    var userFiles := manager.GetFiles(user);
    ghost var files := if user in before then before[user] else map[];
    assert manager.Store() == before[user := files];
    var lastFileState := userFiles.Get(name);
    assert lastFileState == LookupOrEmpty(before, user, name);
    var onComplete := StartListening(action.session);
    var nextState := GetNextState(lastFileState, seen, action, onComplete);
    assert userFiles.fileStatesByFilename == files;
    Record(manager, userFiles, user, name, nextState);
    assert manager.Store() == before[user := files[name := nextState]];
    assert Dispatch(before, action, seen) == before[user := files[name := nextState]];
  }

  /**
   * The assignment that ends a turn of `processQueue`: the user's object
   * gets the state under the filename, which changes that user's entry of
   * the store and no other.
   */
  method Record(manager: FilesManager, userFiles: UserFiles, user: string, name: string, state: FileState)
    requires manager.Valid() && user in manager.userFilesByUsername && manager.userFilesByUsername[user] == userFiles
    modifies userFiles
    ensures manager.Valid()
    ensures manager.Store() == old(manager.Store())[user := old(userFiles.fileStatesByFilename)[name := state]]
  {
    userFiles.fileStatesByFilename := userFiles.fileStatesByFilename[name := state];
    assert forall u :: u in manager.userFilesByUsername && u != user ==> manager.userFilesByUsername[u] != userFiles;
  }
}
