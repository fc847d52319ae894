/**
 * The prototype of the server's file state machine in src/tests/tests.cpp:
 * a `FileState` holds a name, a tag, four file callbacks and the operation
 * it started.  `Create` starts a state that creates the file; `Execute`
 * derives the next state from the last one and starts a plan of callback
 * calls and waits on the last state's operation.
 */
module Prototype {
  import opened Basics
  import opened Plans

  type Step = Plans.Step<string>

  datatype FileStateTag = Reading | Updating | Deleting

  datatype FileOperationTag = Create | Update | Read | Delete

  datatype FileState = FileState(
    name: string,
    tag: Slot<FileStateTag>,
    createFile: Callback,
    writeFile: Callback,
    readFile: Callback,
    deleteFile: Callback,
    executing: seq<Step>)

  /** The roles of the four callbacks. */
  datatype Role = CreateRole | WriteRole | ReadRole | DeleteRole

  function Pick(state: FileState, role: Role): Callback {
    match role
    case CreateRole => state.createFile
    case WriteRole => state.writeFile
    case ReadRole => state.readFile
    case DeleteRole => state.deleteFile
  }

  /**
   * `FileState::Create`: an `Updating` state holding the given callbacks
   * (passed in the order create, read, write, delete) whose operation calls
   * `createFile` with the name and the connection.
   */
  function CreateState(name: string, connection: int, createFile: Callback, readFile: Callback,
                       writeFile: Callback, deleteFile: Callback): (fs: FileState)
    ensures fs.name == name && fs.tag == Assigned(Updating)
    ensures Pick(fs, CreateRole) == createFile && Pick(fs, ReadRole) == readFile
    ensures Pick(fs, WriteRole) == writeFile && Pick(fs, DeleteRole) == deleteFile
    ensures fs.executing == [Call(Pick(fs, CreateRole), name, connection)]
  {
    var fs := FileState(name, Unassigned, NoTarget, NoTarget, NoTarget, NoTarget, []);
    var fs := fs.(tag := Assigned(Updating), createFile := createFile, writeFile := writeFile,
                  readFile := readFile, deleteFile := deleteFile);
    fs.(executing := [Call(fs.createFile, fs.name, connection)])
  }

  /** The constructor `FileState(FileState *lastState)`: the name and all four callbacks are copied. */
  function Derived(last: FileState): (fs: FileState)
    ensures fs.name == last.name && fs.tag.Unassigned? && fs.executing == []
    ensures forall role :: Pick(fs, role) == Pick(last, role)
  {
    FileState(last.name, Unassigned, last.createFile, last.writeFile, last.readFile, last.deleteFile, [])
  }

  /**
   * `ExecuteOperation`: the steps run for `operation` given the last
   * state's tag as read (`None`: a tag that holds no enumerator) and the new
   * state.  The three chains of the source follow each other; at most one of
   * them fires.
   */
  function ExecuteOperation(operation: FileOperationTag, lastTag: Option<FileStateTag>, next: FileState, connection: int)
    : (plan: seq<Step>)
    ensures forall i :: 0 <= i < |plan| && plan[i].Call? ==> plan[i].name == next.name && plan[i].connection == connection
  {
    UpdateChain(operation, lastTag, next, connection) + ReadChain(operation, lastTag, next, connection) +
    DeleteChain(operation, lastTag, next, connection)
  }

  /** The first chain of `ExecuteOperation`: an update. */
  function UpdateChain(operation: FileOperationTag, lastTag: Option<FileStateTag>, next: FileState, connection: int)
    : (steps: seq<Step>)
    ensures operation != Update ==> steps == []
    ensures forall i :: 0 <= i < |steps| && steps[i].Call? ==> steps[i].name == next.name && steps[i].connection == connection
  {
    if operation == Update && lastTag == Some(Reading) then
      [WaitPrevious, Call(next.writeFile, next.name, connection)]
    else if operation == Update && lastTag == Some(Updating) then
      [RequestStopUpdate, WaitPrevious, Call(next.writeFile, next.name, connection)]
    else if operation == Update && lastTag == Some(Deleting) then
      [WaitPrevious, Call(next.createFile, next.name, connection)]
    else []
  }

  /** The second chain: a read. */
  function ReadChain(operation: FileOperationTag, lastTag: Option<FileStateTag>, next: FileState, connection: int)
    : (steps: seq<Step>)
    ensures operation != Read ==> steps == []
    ensures forall i :: 0 <= i < |steps| && steps[i].Call? ==> steps[i].name == next.name && steps[i].connection == connection
  {
    if operation == Read && lastTag == Some(Reading) then
      [Call(next.readFile, next.name, connection), WaitPrevious]
    else if operation == Read && lastTag == Some(Updating) then
      [WaitPrevious, Call(next.readFile, next.name, connection)]
    else if operation == Read && lastTag == Some(Deleting) then
      [WaitPrevious]
    else []
  }

  /** The third chain: a delete. */
  function DeleteChain(operation: FileOperationTag, lastTag: Option<FileStateTag>, next: FileState, connection: int)
    : (steps: seq<Step>)
    ensures operation != Delete ==> steps == []
    ensures forall i :: 0 <= i < |steps| && steps[i].Call? ==> steps[i].name == next.name && steps[i].connection == connection
  {
    if operation == Delete && lastTag == Some(Reading) then
      [WaitPrevious, Call(next.deleteFile, next.name, connection)]
    else if operation == Delete && lastTag == Some(Updating) then
      [RequestStopUpdate, WaitPrevious, Call(next.deleteFile, next.name, connection)]
    else if operation == Delete && lastTag == Some(Deleting) then
      [WaitPrevious]
    else []
  }

  /** The tag `Execute` gives the new state. */
  function NextTag(operation: FileOperationTag, lastTag: Option<FileStateTag>): (tag: FileStateTag)
    ensures tag == Deleting <==> operation == Delete || (operation == Read && lastTag == Some(Deleting))
    ensures tag == Reading <==> operation == Read && lastTag != Some(Deleting)
    ensures tag == Updating <==> operation == Create || operation == Update
  {
    match operation
    case Read => if lastTag == Some(Deleting) then Deleting else Reading
    case Delete => Deleting
    case Create => Updating
    case Update => Updating
  }

  /**
   * `FileState::Execute`: the derived state, tagged, running the plan for
   * `operation`; the last state's tag is read as `AsRead(last.tag, seen)`.
   */
  function Execute(operation: FileOperationTag, last: FileState, seen: Option<FileStateTag>, connection: int)
    : (fs: FileState)
    ensures fs.name == last.name && forall role :: Pick(fs, role) == Pick(last, role)
    ensures fs.tag == Assigned(NextTag(operation, AsRead(last.tag, seen)))
    ensures fs.executing == ExecuteOperation(operation, AsRead(last.tag, seen), fs, connection)
  {
    var lastTag := AsRead(last.tag, seen);
    var fs := Derived(last);
    var fs := fs.(tag := Assigned(NextTag(operation, lastTag)));
    fs.(executing := ExecuteOperation(operation, lastTag, fs, connection))
  }

  /**
   * The callback an operation calls after a state with tag `lastTag`:
   * an update writes, or re-creates a file being deleted; a read reads and a
   * delete deletes, except after a delete, where neither calls anything.
   */
  function CalledRole(operation: FileOperationTag, lastTag: FileStateTag): Option<Role> {
    match operation
    case Create => None
    case Update => if lastTag == Deleting then Some(CreateRole) else Some(WriteRole)
    case Read => if lastTag == Deleting then None else Some(ReadRole)
    case Delete => if lastTag == Deleting then None else Some(DeleteRole)
  }

  /**
   * The plan table: at most one callback is called, the one `CalledRole`
   * names, with the new state's name; every operation but `Create` waits for
   * the last one exactly once; a stop is requested first exactly when an
   * update or delete follows an update; and the call waits for the last
   * operation except for a read after a read.
   */
  lemma PlanTable(operation: FileOperationTag, tag: FileStateTag, next: FileState, connection: int)
    ensures var role := CalledRole(operation, tag);
            Fits(ExecuteOperation(operation, Some(tag), next, connection),
                 if role.None? then [] else [Call(Pick(next, role.value), next.name, connection)],
                 operation != Create,
                 tag == Updating && (operation == Update || operation == Delete),
                 !(operation == Read && tag == Reading))
  {
    match operation
    case Create =>
      Nothing(ExecuteOperation(operation, Some(tag), next, connection));
    case Update => UpdatePlan(tag, next, connection);
    case Read => ReadPlan(tag, next, connection);
    case Delete => DeletePlan(tag, next, connection);
  }

  lemma UpdatePlan(tag: FileStateTag, next: FileState, connection: int)
    ensures var role := CalledRole(Update, tag);
            Fits(ExecuteOperation(Update, Some(tag), next, connection), [Call(Pick(next, role.value), next.name, connection)],
                 true, tag == Updating, true)
  {
    var plan := ExecuteOperation(Update, Some(tag), next, connection);
    assert plan == UpdateChain(Update, Some(tag), next, connection) + [] + [];
    match tag
    case Reading =>
      assert plan == [WaitPrevious, Call(Pick(next, WriteRole), next.name, connection)];
      WaitThenCall(plan, Call(Pick(next, WriteRole), next.name, connection));
    case Updating =>
      assert plan == [RequestStopUpdate, WaitPrevious, Call(Pick(next, WriteRole), next.name, connection)];
      StopWaitThenCall(plan, Call(Pick(next, WriteRole), next.name, connection));
    case Deleting =>
      assert plan == [WaitPrevious, Call(Pick(next, CreateRole), next.name, connection)];
      WaitThenCall(plan, Call(Pick(next, CreateRole), next.name, connection));
  }

  lemma ReadPlan(tag: FileStateTag, next: FileState, connection: int)
    ensures Fits(ExecuteOperation(Read, Some(tag), next, connection),
                 if tag == Deleting then [] else [Call(Pick(next, ReadRole), next.name, connection)],
                 true, false, tag != Reading)
  {
    var plan := ExecuteOperation(Read, Some(tag), next, connection);
    assert plan == [] + ReadChain(Read, Some(tag), next, connection) + [];
    match tag
    case Reading =>
      assert plan == [Call(Pick(next, ReadRole), next.name, connection), WaitPrevious];
      CallThenWait(plan, Call(Pick(next, ReadRole), next.name, connection));
    case Updating =>
      assert plan == [WaitPrevious, Call(Pick(next, ReadRole), next.name, connection)];
      WaitThenCall(plan, Call(Pick(next, ReadRole), next.name, connection));
    case Deleting =>
      assert plan == [WaitPrevious];
      WaitOnly(plan);
  }

  lemma DeletePlan(tag: FileStateTag, next: FileState, connection: int)
    ensures Fits(ExecuteOperation(Delete, Some(tag), next, connection),
                 if tag == Deleting then [] else [Call(Pick(next, DeleteRole), next.name, connection)],
                 true, tag == Updating, true)
  {
    var plan := ExecuteOperation(Delete, Some(tag), next, connection);
    assert plan == [] + [] + DeleteChain(Delete, Some(tag), next, connection);
    match tag
    case Reading =>
      assert plan == [WaitPrevious, Call(Pick(next, DeleteRole), next.name, connection)];
      WaitThenCall(plan, Call(Pick(next, DeleteRole), next.name, connection));
    case Updating =>
      assert plan == [RequestStopUpdate, WaitPrevious, Call(Pick(next, DeleteRole), next.name, connection)];
      StopWaitThenCall(plan, Call(Pick(next, DeleteRole), next.name, connection));
    case Deleting =>
      assert plan == [WaitPrevious];
      WaitOnly(plan);
  }

  /**
   * What the tests check: a read or an update that follows `Create` calls
   * the callback given to `Create` for that role, with the same name and
   * connection, only after the create operation has been waited for.
   */
  lemma CreateCompletesFirst(name: string, connection: int, createFile: Callback, readFile: Callback,
                             writeFile: Callback, deleteFile: Callback, operation: FileOperationTag,
                             seen: Option<FileStateTag>)
    requires operation == Read || operation == Update
    ensures var initial := CreateState(name, connection, createFile, readFile, writeFile, deleteFile);
            var next := Execute(operation, initial, seen, connection);
            var plan := next.executing;
            next.tag == Assigned(if operation == Read then Reading else Updating) &&
            Calls(plan) == [Call(if operation == Read then readFile else writeFile, name, connection)] &&
            CallsAfterWait(plan)
  {
    var initial := CreateState(name, connection, createFile, readFile, writeFile, deleteFile);
    var next := Execute(operation, initial, seen, connection);
    PlanTable(operation, Updating, next, connection);
  }
}
