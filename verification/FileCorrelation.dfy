/** Correlating file events: three maps, the verdict on each event, and the record it leaves. */
module FileCorrelation {
  import opened Prelude
  import opened ProcessStore

  /** The operating system's answers while one event is handled. */
  datatype Os = Os(
    normalize: string -> string, insideWorkingDir: string -> bool, inProtectedFolders: string -> bool,
    isDirectory: string -> bool)

  /** One kernel-file event as its parser answers: a field is None when every try_parse of it fails.
      `inJob` is the job membership of the header's process id. */
  datatype FileInput = FileInput(
    eventId: nat, processId: nat, inJob: bool,
    fileName: Option<string>, filePath: Option<string>,
    fileObject: Option<nat>, fileKey: Option<nat>, irp: Option<nat>, irpPtr: Option<nat>,
    createOptions: Option<bv32>, status: Option<bv32>, ntStatus: Option<bv32>,
    byteOffset: Option<nat>, ioSize: Option<nat>,
    os: Os, now: Time)
  {
    /** The IRP pointer under either of its names; 0 if there is none. */
    function Irp(): nat {
      if irp.Some? then irp.value else irpPtr.GetOr(0)
    }

    function Object(): nat {
      fileObject.GetOr(0)
    }

    function Key(): nat {
      fileKey.GetOr(0)
    }

    function Status(): Option<bv32> {
      if status.Some? then status else ntStatus
    }

    function NormalName(): string {
      os.normalize(fileName.GetOr(""))
    }

    /** FILE_DIRECTORY_FILE among the option bits (the top byte is the disposition). */
    predicate DirectoryOpen() {
      (createOptions.GetOr(0) & 0x00FFFFFF) & 0x00000001 != 0
    }

    predicate DeleteOnClose() {
      createOptions.Some? && createOptions.value & 0x00001000 != 0
    }

    /** A completion status is present and its severity is not "error". */
    predicate Succeeded() {
      Status().Some? && Status().value & 0x80000000 == 0
    }

    predicate ProtectedOutside(path: string) {
      && path != ""
      && !os.insideWorkingDir(os.normalize(path))
      && os.inProtectedFolders(os.normalize(path))
    }
  }

  // ---------------------------------------------------------------------------------------------
  // What the fields of an event mean, in numbers.

  /** FileObject and FileKey; 0 stands for a missing pointer. */
  function ObjectOf(e: FileInput): nat { e.fileObject.GetOr(0) }

  function KeyOf(e: FileInput): nat { e.fileKey.GetOr(0) }

  /** The field Irp if there is one, else IrpPtr. */
  function IrpOf(e: FileInput): nat {
    match e.irp case Some(irp) => irp case None => e.irpPtr.GetOr(0)
  }

  function NameOf(e: FileInput): string {
    e.os.normalize(e.fileName.GetOr(""))
  }

  /** The completion status - Status, else NtStatus - is there and below 0x80000000. */
  predicate Successful(e: FileInput) {
    match e.status
    case Some(status) => status < 0x8000_0000
    case None => e.ntStatus.Some? && e.ntStatus.value < 0x8000_0000
  }

  /** Create options are there and odd: bit 0 asks for a directory. */
  predicate OpensDirectory(e: FileInput) {
    e.createOptions.Some? && e.createOptions.value % 2 == 1
  }

  /** Bit 12 of the create options deletes the file when it is closed. */
  predicate DeletesOnClose(e: FileInput) {
    e.createOptions.Some? && e.createOptions.value / 0x1000 % 2 == 1
  }

  /** A path whose normal form lies in a protected folder and not in the working directory. */
  predicate Protected(e: FileInput, path: string) {
    path != "" && e.os.inProtectedFolders(e.os.normalize(path)) && !e.os.insideWorkingDir(e.os.normalize(path))
  }

  lemma Pointers(e: FileInput)
    ensures e.Object() == ObjectOf(e) && e.Key() == KeyOf(e) && e.Irp() == IrpOf(e) && e.NormalName() == NameOf(e)
  {
  }

  /** The code's bit tests are these. */
  lemma Bits(e: FileInput)
    ensures e.Succeeded() <==> Successful(e)
    ensures e.DirectoryOpen() <==> OpensDirectory(e)
    ensures e.DeleteOnClose() <==> DeletesOnClose(e)
  {
  }

  lemma Protection(e: FileInput, path: string)
    ensures e.ProtectedOutside(path) <==> Protected(e, path)
  {
  }

  datatype PendingCreate = PendingCreate(path: string, fileObject: nat, processId: nat)

  datatype Maps = Maps(objects: map<nat, string>, keys: map<nat, string>, pending: map<nat, PendingCreate>)

  const NO_MAPS := Maps(map[], map[], map[])

  function ResolveFilePath(m: Maps, e: FileInput): string {
    if e.Object() in m.objects && m.objects[e.Object()] != "" then m.objects[e.Object()]
    else if e.Key() in m.keys then m.keys[e.Key()] else ""
  }

  // ---------------------------------------------------------------------------------------------
  // The handlers' effect on the maps, and their verdict (false: a violation).

  function NameCreated(m: Maps, e: FileInput): Maps {
    if e.Key() == 0 || e.fileName.GetOr("") == "" then m
    else m.(keys := m.keys[e.Key() := e.NormalName()])
  }

  function NameDeleted(m: Maps, e: FileInput): Maps {
    if e.Key() == 0 then m else m.(keys := m.keys - {e.Key()})
  }

  function PendingOf(e: FileInput): PendingCreate {
    PendingCreate(e.NormalName(), e.Object(), e.processId)
  }

  function Opened(m: Maps, e: FileInput): Maps {
    var m1 := if e.Object() != 0 && e.fileName.GetOr("") != ""
              then m.(objects := m.objects[e.Object() := e.NormalName()]) else m;
    if !e.DirectoryOpen() && e.ProtectedOutside(e.NormalName()) && e.Irp() != 0
    then m1.(pending := m1.pending[e.Irp() := PendingOf(e)]) else m1
  }

  function Ended(m: Maps, e: FileInput): (Maps, bool) {
    if e.Irp() !in m.pending then (m, true)
    else
      var p := m.pending[e.Irp()];
      var m1 := m.(pending := m.pending - {e.Irp()});
      if !e.Succeeded() || e.os.isDirectory(p.path) then (m1, true)
      else (if p.fileObject != 0 then m1.(objects := m1.objects[p.fileObject := p.path]) else m1, false)
  }

  function RenamedTo(m: Maps, e: FileInput): (Maps, bool) {
    var newPath := e.filePath.GetOr("");
    var normal := e.os.normalize(newPath);
    (if e.Object() != 0 && newPath != "" then m.(objects := m.objects[e.Object() := normal]) else m,
     !(e.ProtectedOutside(ResolveFilePath(m, e)) || e.ProtectedOutside(normal)))
  }

  function CreatedNew(m: Maps, e: FileInput): (Maps, bool) {
    (if e.Object() != 0 && e.NormalName() != "" then m.(objects := m.objects[e.Object() := e.NormalName()]) else m,
     e.DirectoryOpen() || e.os.isDirectory(e.NormalName()) || !e.ProtectedOutside(e.NormalName()))
  }

  /** The callback: name events always, completions from anyone, the rest only from the job. */
  function Handle(m: Maps, e: FileInput): (Maps, bool) {
    if e.eventId == 10 then (NameCreated(m, e), true)
    else if e.eventId == 11 then (NameDeleted(m, e), true)
    else if e.eventId != 24 && !e.inJob then (m, true)
    else match e.eventId
      case 12 => (Opened(m, e), true)
      case 14 => (m.(objects := m.objects - {e.Object()}), true)
      case 19 | 29 => (m, !e.ProtectedOutside(ResolveFilePath(m, e)))
      case 24 => Ended(m, e)
      case 27 => RenamedTo(m, e)
      case 30 => CreatedNew(m, e)
      case _ => (m, true)
  }

  // ---------------------------------------------------------------------------------------------
  // What RecordFileEvent writes into the history of a process.

  function OperationOf(eventId: nat): Option<string> {
    match eventId
    case 12 => Some("CREATE/OPEN REQUEST")
    case 14 => Some("CLOSE")
    case 15 => Some("READ REQUEST")
    case 16 => Some("WRITE REQUEST")
    case 17 => Some("SETINFORMATION REQUEST")
    case 18 => Some("SETDELETE REQUEST")
    case 19 | 29 => Some("RENAME REQUEST")
    case 26 => Some("DELETEPATH")
    case 27 => Some("RENAMEPATH")
    case 30 => Some("CREATE NEW FILE")
    case _ => None
  }

  /** The event's own path if it carries one, else what the maps resolve it to. */
  function RecordedPath(m: Maps, e: FileInput): string {
    var own := if e.eventId == 12 || e.eventId == 30 then e.fileName.GetOr("")
               else if e.eventId == 26 || e.eventId == 27 then e.filePath.GetOr("")
               else "";
    e.os.normalize(if own == "" then ResolveFilePath(m, e) else own)
  }

  function RecordOf(m: Maps, e: FileInput): FileEvent
    requires OperationOf(e.eventId).Some?
  {
    var io := e.eventId == 15 || e.eventId == 16;
    FileEvent(
      e.now, RecordedPath(m, e),
      if e.eventId == 12 && e.DeleteOnClose() then "DELETE ON CLOSE REQUEST" else OperationOf(e.eventId).value,
      e.eventId,
      if io then e.byteOffset else None,
      if io then e.ioSize else None)
  }

  const OPERATIONS: map<nat, string> := map[
    12 := "CREATE/OPEN REQUEST", 14 := "CLOSE", 15 := "READ REQUEST", 16 := "WRITE REQUEST",
    17 := "SETINFORMATION REQUEST", 18 := "SETDELETE REQUEST", 19 := "RENAME REQUEST", 26 := "DELETEPATH",
    27 := "RENAMEPATH", 29 := "RENAME REQUEST", 30 := "CREATE NEW FILE"]

  predicate Named(name: Option<string>) {
    name.Some? && name.value != ""
  }

  /** What the record of an event says: when and what it was, on which path - the event's own name if it carries one,
      else the path its pointers lead to - and offset and size of reads and writes alone. */
  predicate Describes(record: FileEvent, e: FileInput, pointed: string) {
    && record.timestamp == e.now && record.eventId == e.eventId
    && record.path == e.os.normalize(
         if e.eventId in {12, 30} && Named(e.fileName) then e.fileName.value
         else if e.eventId in {26, 27} && Named(e.filePath) then e.filePath.value
         else pointed)
    && e.eventId in OPERATIONS
    && record.operation ==
         (if e.eventId == 12 && DeletesOnClose(e) then "DELETE ON CLOSE REQUEST" else OPERATIONS[e.eventId])
    && (e.eventId in {15, 16} ==> record.byteOffset == e.byteOffset && record.ioSize == e.ioSize)
    && (e.eventId !in {15, 16} ==> record.byteOffset == None && record.ioSize == None)
  }

  lemma ListedOperations(e: FileInput)
    ensures Recordable(e) <==> e.inJob && e.eventId in OPERATIONS
    ensures e.eventId in OPERATIONS ==> OperationOf(e.eventId) == Some(OPERATIONS[e.eventId])
  {
  }

  lemma RecordDescribes(m: Maps, e: FileInput)
    requires OperationOf(e.eventId).Some?
    ensures Describes(RecordOf(m, e), e, ResolveFilePath(m, e))
  {
    Bits(e);
    ListedOperations(e);
  }

  /** Recorded at all: a listed operation of a process in the job. */
  predicate Recordable(e: FileInput) {
    e.inJob && OperationOf(e.eventId).Some?
  }

  ghost function AfterRecord(contexts: Contexts, m: Maps, e: FileInput): Contexts {
    if !Recordable(e) then contexts
    else match FindKey(contexts, e.processId, 0)
      case None => contexts
      case Some(k) =>
        if k !in contexts then contexts
        else Updated(contexts, k, contexts[k].(files := contexts[k].files + [RecordOf(m, e)])).0
  }

  /** All that happened is that the history of lifetime k grew by one record, which tells of event e. */
  ghost predicate Appends(before: Contexts, after: Contexts, k: nat, e: FileInput, pointed: string)
    requires k in before
  {
    exists record :: Describes(record, e, pointed)
                     && after == before[k := before[k].(files := before[k].files + [record])]
  }

  lemma RecordAppends(contexts: Contexts, m: Maps, e: FileInput, k: nat)
    requires UniqueIdentity(contexts) && IsNewest(contexts, e.processId, 0, k) && contexts[k].uniqueProcessKey == k
    requires e.inJob && e.eventId in OPERATIONS
    ensures Appends(contexts, AfterRecord(contexts, m, e), k, e, ResolveFilePath(m, e))
  {
    ListedOperations(e);
    RecordDescribes(m, e);
    FindKeyIs(contexts, e.processId, 0, k);
    hide RecordOf;
    hide Describes;
    assert AfterRecord(contexts, m, e) == contexts[k := contexts[k].(files := contexts[k].files + [RecordOf(m, e)])];
  }

  // ---------------------------------------------------------------------------------------------
  // The provider.

  class FileProvider {
    var objects: map<nat, string>
    var keys: map<nat, string>
    var pending: map<nat, PendingCreate>
    var reexecutionRequested: bool

    ghost function State(): Maps
      reads this
    {
      Maps(objects, keys, pending)
    }

    constructor ()
      ensures State() == NO_MAPS && !reexecutionRequested
    {
      objects, keys, pending, reexecutionRequested := map[], map[], map[], false;
    }

    method Resolve(e: FileInput) returns (path: string)
      ensures path == ResolveFilePath(State(), e)
    {
      if e.Object() in objects {
        if objects[e.Object()] != "" {
          return objects[e.Object()];
        }
      }
      return if e.Key() in keys then keys[e.Key()] else "";
    }

    method NameCreateHandler(e: FileInput)
      modifies this`keys
      ensures State() == NameCreated(old(State()), e)
    {
      if e.fileKey.None? || e.fileKey.value == 0 {
        return;
      }
      if e.fileName.Some? && e.fileName.value != "" {
        keys := keys[e.fileKey.value := e.os.normalize(e.fileName.value)];
      }
    }

    method NameDeleteHandler(e: FileInput)
      modifies this`keys
      ensures State() == NameDeleted(old(State()), e)
    {
      if e.fileKey.None? || e.fileKey.value == 0 {
        return;
      }
      keys := keys - {e.fileKey.value};
    }

    method CreateOpenHandler(e: FileInput) returns (valid: bool)
      modifies this`objects, this`pending
      ensures valid && State() == Opened(old(State()), e)
    {
      var filePath := e.fileName.GetOr("");
      var normalized := e.os.normalize(filePath);
      if e.Object() != 0 && filePath != "" {
        objects := objects[e.Object() := normalized];
      }
      if e.DirectoryOpen() {
        return true;
      }
      if e.ProtectedOutside(normalized) && e.Irp() != 0 {
        pending := pending[e.Irp() := PendingCreate(normalized, e.Object(), e.processId)];
      }
      return true;
    }

    method CloseHandler(e: FileInput) returns (valid: bool)
      modifies this`objects
      ensures valid && State() == old(State()).(objects := old(objects) - {e.Object()})
    {
      objects := objects - {e.Object()};
      return true;
    }

    method OperationEndHandler(e: FileInput) returns (valid: bool)
      modifies this`objects, this`pending
      ensures (State(), valid) == Ended(old(State()), e)
      ensures valid <==> IrpOf(e) !in old(pending) || !Successful(e) || e.os.isDirectory(old(pending)[IrpOf(e)].path)
      ensures pending == old(pending) - {IrpOf(e)}
    {
      Pointers(e);
      Bits(e);
      if e.Irp() !in pending {
        return true;
      }
      var create := pending[e.Irp()];
      pending := pending - {e.Irp()};
      if !e.Succeeded() {
        return true;
      }
      if e.os.isDirectory(create.path) {
        return true;
      }
      if create.fileObject != 0 {
        objects := objects[create.fileObject := create.path];
      }
      return false;
    }

    method RenamePathHandler(e: FileInput) returns (valid: bool)
      modifies this`objects
      ensures (State(), valid) == RenamedTo(old(State()), e)
    {
      var newPath := e.filePath.GetOr("");
      var oldPath := Resolve(e);
      var normalized := e.os.normalize(newPath);
      var fromProtected := e.ProtectedOutside(oldPath);
      var toProtected := e.ProtectedOutside(normalized);
      if e.Object() != 0 && newPath != "" {
        objects := objects[e.Object() := normalized];
      }
      return !(fromProtected || toProtected);
    }

    method CreateNewFileHandler(e: FileInput) returns (valid: bool)
      modifies this`objects
      ensures (State(), valid) == CreatedNew(old(State()), e)
    {
      var normalized := e.NormalName();
      if e.Object() != 0 && normalized != "" {
        objects := objects[e.Object() := normalized];
      }
      if e.DirectoryOpen() || e.os.isDirectory(normalized) {
        return true;
      }
      if !e.ProtectedOutside(normalized) {
        return true;
      }
      return false;
    }

    /** RecordFileEvent: builds the event step by step and appends it to the newest lifetime of its process. */
    method RecordFileEvent(store: ProcessContextStore, e: FileInput)
      requires store.State().Valid() && UniqueIdentity(store.contexts)
      requires e.inJob || e.eventId == 24
      modifies store`contexts
      ensures store.State() == old(store.State()).(contexts := AfterRecord(old(store.contexts), State(), e))
      ensures forall k :: e.inJob && e.eventId in OPERATIONS && IsNewest(old(store.contexts), e.processId, 0, k) ==>
                Appends(old(store.contexts), store.contexts, k, e, ResolveFilePath(State(), e))
    {
      hide Describes;
      forall k | e.inJob && e.eventId in OPERATIONS && IsNewest(store.contexts, e.processId, 0, k)
        ensures Appends(store.contexts, AfterRecord(store.contexts, State(), e), k, e, ResolveFilePath(State(), e))
      {
        RecordAppends(store.contexts, State(), e, k);
      }
      var operation := OperationOf(e.eventId);
      if operation == None {
        return;
      }
      var key := store.FindProcessKey(e.processId, 0);
      if key == None {
        return;
      }
      var event := FileEvent(e.now, "", operation.value, e.eventId, None, None);
      if e.eventId == 12 || e.eventId == 30 {
        event := event.(path := e.fileName.GetOr(event.path));
      } else if e.eventId == 26 || e.eventId == 27 {
        event := event.(path := e.filePath.GetOr(event.path));
      }
      if event.path == "" {
        var resolved := Resolve(e);
        event := event.(path := resolved);
      }
      event := event.(path := e.os.normalize(event.path));
      if e.eventId == 12 && e.DeleteOnClose() {
        event := event.(operation := "DELETE ON CLOSE REQUEST");
      }
      if e.eventId == 15 || e.eventId == 16 {
        event := event.(byteOffset := e.byteOffset, ioSize := e.ioSize);
      }
      var _ := store.Update(key.value, Some((c: ProcessContext) => c.(files := c.files + [event])));
    }

    /** The provider's callback. `alert` says whether this event raised the one alert. */
    method OnFileEvent(store: ProcessContextStore, e: FileInput) returns (alert: bool)
      requires store.State().Valid() && UniqueIdentity(store.contexts)
      modifies this, store`contexts
      ensures store.State() == old(store.State()).(contexts := AfterRecord(old(store.contexts), old(State()), e))
      ensures State() == Handle(old(State()), e).0
      ensures reexecutionRequested == (old(reexecutionRequested) || !Handle(old(State()), e).1)
      ensures alert == (!old(reexecutionRequested) && !Handle(old(State()), e).1)
    {
      if e.eventId == 10 {
        NameCreateHandler(e);
        return false;
      } else if e.eventId == 11 {
        NameDeleteHandler(e);
        return false;
      }
      if e.eventId != 24 && !e.inJob {
        return false;
      }
      RecordFileEvent(store, e);
      var valid := true;
      match e.eventId {
        case 12 => valid := CreateOpenHandler(e);
        case 14 => valid := CloseHandler(e);
        case 19 | 29 =>
          var path := Resolve(e);
          valid := !e.ProtectedOutside(path);
        case 24 => valid := OperationEndHandler(e);
        case 27 => valid := RenamePathHandler(e);
        case 30 => valid := CreateNewFileHandler(e);
        case _ =>
      }
      alert := !valid && !reexecutionRequested;
      if !valid {
        reexecutionRequested := true;
      }
    }
  }
}
