/**
 * The older prototype of the file state machine (tests.cpp at the top of
 * the repository): states tagged `Created`, `Reading` or `Updating`, three
 * file callbacks, and the factories `Update` and `Read` that derive the next
 * state and start the operation's plan.
 */
module LegacyPrototype {
  import opened Basics
  import opened Plans

  datatype FileStateTag = Created | Reading | Updating

  datatype FileOperationTag = Update | Read | Delete

  /** The `char *name` field is set only by the factories; until then it is unassigned. */
  type Step = Plans.Step<Slot<string>>

  datatype FileState = FileState(
    name: Slot<string>,
    tag: Slot<FileStateTag>,
    readFile: Callback,
    writeFile: Callback,
    deleteFile: Callback,
    executing: seq<Step>)

  /** The constructor taking the three callbacks: name and tag are left unset, nothing runs. */
  function Initial(readFile: Callback, writeFile: Callback, deleteFile: Callback): (fs: FileState)
    ensures fs.name.Unassigned? && fs.tag.Unassigned? && fs.executing == []
    ensures fs.readFile == readFile && fs.writeFile == writeFile && fs.deleteFile == deleteFile
  {
    FileState(Unassigned, Unassigned, readFile, writeFile, deleteFile, [])
  }

  /**
   * The constructor `FileState(FileState *lastState)` as written: it copies
   * `readFile` only, so the new state's `writeFile` and `deleteFile` are
   * empty whatever the last state held.
   */
  function DerivedAsWritten(last: FileState): (fs: FileState)
    ensures fs.readFile == last.readFile && fs.writeFile == NoTarget && fs.deleteFile == NoTarget
    ensures fs.name.Unassigned? && fs.tag.Unassigned? && fs.executing == []
  {
    FileState(Unassigned, Unassigned, last.readFile, NoTarget, NoTarget, [])
  }

  /** The derived-state constructor as evidently intended: all three callbacks are copied. */
  function Derived(last: FileState): (fs: FileState)
    ensures fs.readFile == last.readFile && fs.writeFile == last.writeFile && fs.deleteFile == last.deleteFile
    ensures fs.name.Unassigned? && fs.tag.Unassigned? && fs.executing == []
  {
    FileState(Unassigned, Unassigned, last.readFile, last.writeFile, last.deleteFile, [])
  }

  /**
   * `ExecuteOperation`: a switch on the operation, then on the last state's
   * tag as read (`None`: a tag that holds no enumerator, which no case of
   * the switch matches).
   */
  function ExecuteOperation(operation: FileOperationTag, lastTag: Option<FileStateTag>, next: FileState, connection: int)
    : (plan: seq<Step>)
    ensures forall i :: 0 <= i < |plan| && plan[i].Call? ==> plan[i].name == next.name && plan[i].connection == connection
  {
    match lastTag
    case None => []
    case Some(tag) =>
      var callback := match operation
        case Update => next.writeFile
        case Delete => next.deleteFile
        case Read => next.readFile;
      var call := Call(callback, next.name, connection);
      match tag
      case Created => [call]
      case Reading => if operation == Read then [call, WaitPrevious] else [WaitPrevious, call]
      case Updating => [RequestStopUpdate, WaitPrevious, call]
  }

  /**
   * The plan table: exactly one callback is called, the one for the
   * operation, with the new state's name; after `Created` it runs at once,
   * after `Reading` it waits for the last operation (a read only after
   * reading), and after `Updating` it first requests a stop and waits.
   */
  lemma PlanTable(operation: FileOperationTag, tag: FileStateTag, next: FileState, connection: int)
    ensures var callback := match operation
              case Update => next.writeFile
              case Delete => next.deleteFile
              case Read => next.readFile;
            Fits(ExecuteOperation(operation, Some(tag), next, connection), [Call(callback, next.name, connection)],
                 tag != Created, tag == Updating, tag == Updating || (tag == Reading && operation != Read))
  {
    var plan := ExecuteOperation(operation, Some(tag), next, connection);
    var callback := match operation
      case Update => next.writeFile
      case Delete => next.deleteFile
      case Read => next.readFile;
    var call := Call(callback, next.name, connection);
    match tag
    case Created => CallOnly(plan, call);
    case Reading => if operation == Read { CallThenWait(plan, call); } else { WaitThenCall(plan, call); }
    case Updating => StopWaitThenCall(plan, call);
  }

  /**
   * The new state gets the last state's name and `tag`, and starts the plan
   * for `operation`, reading the last state's tag as `AsRead(last.tag, seen)`.
   */
  function Started(operation: FileOperationTag, tag: FileStateTag, last: FileState, seen: Option<FileStateTag>,
                   derived: FileState, connection: int)
    : (fs: FileState)
    ensures fs.name == last.name && fs.tag == Assigned(tag)
    ensures fs.readFile == derived.readFile && fs.writeFile == derived.writeFile && fs.deleteFile == derived.deleteFile
    ensures fs.executing == ExecuteOperation(operation, AsRead(last.tag, seen), fs, connection)
  {
    var fs := derived.(name := last.name, tag := Assigned(tag));
    fs.(executing := ExecuteOperation(operation, AsRead(last.tag, seen), fs, connection))
  }

  /** `FileState::Update` as written. */
  function UpdateAsWritten(last: FileState, seen: Option<FileStateTag>, connection: int): (fs: FileState)
    ensures fs.name == last.name && fs.tag == Assigned(Updating)
  {
    Started(Update, Updating, last, seen, DerivedAsWritten(last), connection)
  }

  /** `FileState::Read` as written. */
  function ReadAsWritten(last: FileState, seen: Option<FileStateTag>, connection: int): (fs: FileState)
    ensures fs.name == last.name && fs.tag == Assigned(Reading)
  {
    Started(Read, Reading, last, seen, DerivedAsWritten(last), connection)
  }

  /** `FileState::Update` with the intended derived state. */
  function UpdateState(last: FileState, seen: Option<FileStateTag>, connection: int): (fs: FileState)
    ensures fs.name == last.name && fs.tag == Assigned(Updating)
    ensures fs.readFile == last.readFile && fs.writeFile == last.writeFile && fs.deleteFile == last.deleteFile
  {
    Started(Update, Updating, last, seen, Derived(last), connection)
  }

  /** `FileState::Read` with the intended derived state. */
  function ReadState(last: FileState, seen: Option<FileStateTag>, connection: int): (fs: FileState)
    ensures fs.name == last.name && fs.tag == Assigned(Reading)
    ensures fs.readFile == last.readFile && fs.writeFile == last.writeFile && fs.deleteFile == last.deleteFile
  {
    Started(Read, Reading, last, seen, Derived(last), connection)
  }

  /** The plan calls an empty `std::function`, which throws `std::bad_function_call`. */
  predicate CallsEmptyCallback(plan: seq<Step>) {
    exists i :: 0 <= i < |plan| && plan[i].Call? && plan[i].callback == NoTarget
  }

  /**
   * As written, every update of a state whose tag reads as an enumerator
   * calls an empty `writeFile`,
   * even when the state it follows holds a real one: the derived state never
   * received it.
   */
  lemma UpdateAsWrittenCallsEmptyWrite(last: FileState, seen: Option<FileStateTag>, connection: int)
    requires AsRead(last.tag, seen).Some?
    ensures CallsEmptyCallback(UpdateAsWritten(last, seen, connection).executing)
  {
    var fs := UpdateAsWritten(last, seen, connection);
    PlanTable(Update, AsRead(last.tag, seen).value, fs, connection);
    var plan := fs.executing;
    assert Calls(plan) == [Call(NoTarget, fs.name, connection)];
    CallIsInPlan(plan);
  }

  /**
   * With the intended derived state, a state whose three callbacks are set
   * hands them on: an update or a read that follows it never calls an empty
   * callback, and calls the callback the first state was built with.
   */
  lemma DerivedStatesKeepCallbacks(last: FileState, seen: Option<FileStateTag>, connection: int)
    requires AsRead(last.tag, seen).Some?
    requires last.readFile != NoTarget && last.writeFile != NoTarget && last.deleteFile != NoTarget
    ensures !CallsEmptyCallback(UpdateState(last, seen, connection).executing)
    ensures !CallsEmptyCallback(ReadState(last, seen, connection).executing)
    ensures Calls(UpdateState(last, seen, connection).executing) == [Call(last.writeFile, last.name, connection)]
    ensures Calls(ReadState(last, seen, connection).executing) == [Call(last.readFile, last.name, connection)]
  {
    var update, read := UpdateState(last, seen, connection), ReadState(last, seen, connection);
    PlanTable(Update, AsRead(last.tag, seen).value, update, connection);
    PlanTable(Read, AsRead(last.tag, seen).value, read, connection);
    forall i | 0 <= i < |update.executing| && update.executing[i].Call?
      ensures update.executing[i].callback != NoTarget
    {
      CallsCoverPlan(update.executing, i);
    }
    forall i | 0 <= i < |read.executing| && read.executing[i].Call?
      ensures read.executing[i].callback != NoTarget
    {
      CallsCoverPlan(read.executing, i);
    }
  }

  /**
   * The test: a read that follows a state tagged `Created` calls the
   * `readFile` the first state was built with, as its only step; the
   * as-written constructor keeps `readFile`, so this holds as written too.
   */
  lemma ReadAfterCreatedCallsReadFile(readFile: Callback, writeFile: Callback, deleteFile: Callback,
                                      seen: Option<FileStateTag>, connection: int)
    ensures var initial := Initial(readFile, writeFile, deleteFile).(tag := Assigned(Created));
            ReadAsWritten(initial, seen, connection).executing == [Call(readFile, Unassigned, connection)] &&
            ReadState(initial, seen, connection).executing == [Call(readFile, Unassigned, connection)]
  {
  }
}
