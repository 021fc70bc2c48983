/** The kernel-process event handlers, working on the shared store. */
module ProcessHandlers {
  import opened Prelude
  import opened ProcessStore

  /** What the operating system reports about a live process: its creation time, and its image path
      and user SID as far as they can be queried. */
  datatype Live = Live(created: nat, image: Option<string>, userSid: Option<string>)

  /** One event as its parser answers: a field is None when try_parse fails on it. `inJob` is the job
      membership of the process id and `live` the process query, both as answered during this event. */
  datatype ProcessEvent = ProcessEvent(
    processId: Option<nat>, createTime: Option<nat>, parentProcessId: Option<nat>, sequenceNumber: Option<nat>,
    imageName: Option<string>, mandatoryLabel: Option<string>, commandLine: string,
    exitCode: Option<nat>, exitTime: Option<nat>,
    threadId: Option<nat>, startAddress: Option<nat>,
    imageBase: Option<nat>, imageSize: Option<nat>,
    inJob: bool, live: Option<Live>, now: Time)

  datatype Kind = Start | Rundown | Stop | ThreadStart | ThreadStop | ImageLoad | ImageUnload | Bootstrap | Ignored

  /** The provider's dispatch: the thread events (3 and 4) are switched off. */
  function KindOf(eventId: nat): Kind {
    if eventId == 1 then Start
    else if eventId == 2 then Stop
    else if eventId == 5 then ImageLoad
    else if eventId == 6 then ImageUnload
    else if eventId == 15 then Rundown
    else Ignored
  }

  const EPOCH_TICKS := 116444736000000000

  /** FILETIME ticks, reinterpreted as signed, counted from 1970. */
  function FromFileTime(ticks: nat): Time {
    (if ticks < U64 / 2 then ticks else ticks - U64) - EPOCH_TICKS
  }

  const TICKS_PER_SECOND := 10_000_000

  /** The years 1601 to 1969, 89 of them leap years, in ticks. */
  lemma EpochIs1970()
    ensures EPOCH_TICKS == (369 * 365 + 89) * 86400 * TICKS_PER_SECOND
  {
  }

  /** A tick count is a date: 1601 plus that many ticks or, with the top bit set, 1601 minus what it lacks to 2^64. */
  lemma FileTimeIsDate(ticks: nat)
    requires ticks < U64
    ensures FromFileTime(EPOCH_TICKS) == 0
    ensures FromFileTime(ticks) - FromFileTime(0) == if ticks < 0x8000_0000_0000_0000 then ticks
                                                     else -(0x1_0000_0000_0000_0000 - ticks)
    ensures FromFileTime(0) == -116444736000000000
  {
  }

  function Enriched(c: ProcessContext, live: Option<Live>): ProcessContext {
    match live
    case None => c
    case Some(l) =>
      if c.createTimeTicks != 0 && c.createTimeTicks != l.created then c
      else c.(
        createTimeTicks := l.created,
        startTime := FromFileTime(l.created),
        image := if c.image == "" then l.image.GetOr(c.image) else c.image,
        userSid := l.userSid.GetOr(c.userSid))
  }

  method EnrichLiveProcess(c: ProcessContext, live: Option<Live>) returns (process: ProcessContext)
    ensures process == Enriched(c, live)
    ensures live.None? ==> process == c
    ensures live.Some? && c.createTimeTicks !in {0, live.value.created} ==> process == c
    ensures live.Some? && c.createTimeTicks in {0, live.value.created} ==>
              && process.createTimeTicks == live.value.created
              && process.startTime == FromFileTime(live.value.created)
              && (c.image != "" || live.value.image.None? ==> process.image == c.image)
              && (c.image == "" && live.value.image.Some? ==> Some(process.image) == live.value.image)
              && (live.value.userSid.Some? ==> Some(process.userSid) == live.value.userSid)
              && (live.value.userSid.None? ==> process.userSid == c.userSid)
    ensures process == c.(createTimeTicks := process.createTimeTicks, startTime := process.startTime,
                            image := process.image, userSid := process.userSid)
  {
    process := c;
    match live {
      case None => return;
      case Some(l) =>
        if process.createTimeTicks != 0 && process.createTimeTicks != l.created {
          return;
        }
        process := process.(createTimeTicks := l.created);
        process := process.(startTime := FromFileTime(l.created));
        if process.image == "" {
          if l.image.Some? {
            process := process.(image := l.image.value);
          }
        }
        if l.userSid.Some? {
          process := process.(userSid := l.userSid.value);
        }
    }
  }

  // ---------------------------------------------------------------------------------------------
  // What each handler does to one context.

  function StoppedThreads(threads: seq<ThreadContext>): (r: seq<ThreadContext>)
    ensures |r| == |threads|
  {
    seq(|threads|, i requires 0 <= i < |threads| => threads[i].(running := false))
  }

  function ClosedImages(images: seq<LoadedImage>, at: Time): (r: seq<LoadedImage>)
    ensures |r| == |images|
  {
    seq(|images|, i requires 0 <= i < |images| =>
      if images[i].loaded then images[i].(loaded := false, unloadTime := at) else images[i])
  }

  function StopContext(c: ProcessContext, exitCode: Option<nat>, exitTime: Option<nat>): ProcessContext {
    var at := if exitTime.Some? then FromFileTime(exitTime.value) else c.exitTime;
    c.(running := false,
       exitCode := if exitCode.Some? then exitCode else c.exitCode,
       exitTime := at,
       threads := StoppedThreads(c.threads),
       images := ClosedImages(c.images, at))
  }

  predicate HasLoaded(images: seq<LoadedImage>, base: nat) {
    exists i :: 0 <= i < |images| && images[i].loaded && images[i].baseAddress == base
  }

  function LoadImage(c: ProcessContext, image: LoadedImage): ProcessContext {
    if !c.running || HasLoaded(c.images, image.baseAddress) then c else c.(images := c.images + [image])
  }

  function UnloadedImages(images: seq<LoadedImage>, base: nat, now: Time): (r: seq<LoadedImage>)
    ensures |r| == |images|
  {
    seq(|images|, i requires 0 <= i < |images| =>
      if images[i].loaded && images[i].baseAddress == base then images[i].(loaded := false, unloadTime := now)
        else images[i])
  }

  predicate HasRunning(threads: seq<ThreadContext>, tid: nat) {
    exists i :: 0 <= i < |threads| && threads[i].running && threads[i].tid == tid
  }

  function StartThread(c: ProcessContext, thread: ThreadContext): ProcessContext {
    if !c.running || HasRunning(c.threads, thread.tid) then c else c.(threads := c.threads + [thread])
  }

  function EndedThreads(threads: seq<ThreadContext>, tid: nat): (r: seq<ThreadContext>)
    ensures |r| == |threads|
  {
    seq(|threads|, i requires 0 <= i < |threads| =>
      if threads[i].tid == tid && threads[i].running then threads[i].(running := false) else threads[i])
  }

  /** What a stop makes of a lifetime, entry by entry: exit code and time as far as the event has them, every thread
      stopped, every image that was still loaded unloaded at the exit time. */
  predicate Closed(c: ProcessContext, d: ProcessContext, exitCode: Option<nat>, exitTime: Option<nat>) {
    && !d.running
    && d.exitCode == (if exitCode.Some? then exitCode else c.exitCode)
    && d.exitTime == (if exitTime.Some? then FromFileTime(exitTime.value) else c.exitTime)
    && |d.threads| == |c.threads|
    && (forall i :: 0 <= i < |c.threads| ==> d.threads[i] == ThreadContext(c.threads[i].tid, c.threads[i].startAddress,
         false))
    && |d.images| == |c.images|
    && (forall i :: 0 <= i < |c.images| ==> UnloadedAt(c.images[i], d.images[i], c.images[i].loaded, d.exitTime))
    && d == c.(running := false, exitCode := d.exitCode, exitTime := d.exitTime, threads := d.threads,
         images := d.images)
  }

  /** An image before and after it is unloaded at a given time, if it is; all else about it stays. */
  predicate UnloadedAt(before: LoadedImage, after: LoadedImage, unloads: bool, at: Time) {
    after == if unloads then LoadedImage(before.timestamp, before.path, before.baseAddress, before.size, false, at)
             else before
  }

  /** What an image or thread event makes of the lifetime it is resolved to, entry by entry. */
  predicate Changes(kind: Kind, ev: ProcessEvent, c: ProcessContext, d: ProcessContext) {
    match kind
    case ImageLoad =>
      if ev.imageBase.None? || ev.imageBase.value == 0 || !c.running
         || (exists i :: 0 <= i < |c.images| && c.images[i].loaded && c.images[i].baseAddress == ev.imageBase.value)
      then d == c
      else
        && |d.images| == |c.images| + 1 && d == c.(images := c.images + [d.images[|c.images|]])
        && var image := d.images[|c.images|];
        && image.timestamp == ev.now && image.loaded && image.unloadTime == 0
        && image.baseAddress == ev.imageBase.value
        && image.path == ev.imageName.GetOr("")
        && image.size == ev.imageSize.GetOr(0)
    case ImageUnload =>
      if ev.imageBase.None? then d == c
      else
        && |d.images| == |c.images| && d == c.(images := d.images)
        && forall i :: 0 <= i < |c.images| ==>
             UnloadedAt(c.images[i], d.images[i],
               c.images[i].loaded && c.images[i].baseAddress == ev.imageBase.value, ev.now)
    case ThreadStart =>
      if ev.threadId.None? || ev.threadId.value == 0 || !c.running
         || (exists i :: 0 <= i < |c.threads| && c.threads[i].running && c.threads[i].tid == ev.threadId.value)
      then d == c
      else
        d == c.(threads := c.threads + [ThreadContext(ev.threadId.value, ev.startAddress.GetOr(0), true)])
    case ThreadStop =>
      if ev.threadId.None? then d == c
      else
        && |d.threads| == |c.threads| && d == c.(threads := d.threads)
        && forall i :: 0 <= i < |c.threads| ==>
             var t := c.threads[i];
             d.threads[i] == ThreadContext(t.tid, t.startAddress, t.running && t.tid != ev.threadId.value)
    case _ => d == c
  }

  lemma StopCloses(c: ProcessContext, exitCode: Option<nat>, exitTime: Option<nat>)
    ensures Closed(c, StopContext(c, exitCode, exitTime), exitCode, exitTime)
  {
  }

  // The handlers' loops, over the sequences they change.

  method CloseLifetime(c: ProcessContext, exitCode: Option<nat>, exitTime: Option<nat>)
      returns (process: ProcessContext)
    ensures process == StopContext(c, exitCode, exitTime)
    ensures Closed(c, process, exitCode, exitTime)
  {
    StopCloses(c, exitCode, exitTime);
    hide Closed;
    process := c.(running := false);
    if exitCode.Some? {
      process := process.(exitCode := exitCode);
    }
    if exitTime.Some? {
      process := process.(exitTime := FromFileTime(exitTime.value));
    }
    var threads := StopAll(process.threads);
    var images := CloseAll(process.images, process.exitTime);
    process := process.(threads := threads, images := images);
  }

  method StopAll(before: seq<ThreadContext>) returns (threads: seq<ThreadContext>)
    ensures threads == StoppedThreads(before)
  {
    threads := before;
    for i := 0 to |threads|
      invariant |threads| == |before|
      invariant forall k :: 0 <= k < i ==> threads[k] == before[k].(running := false)
      invariant forall k :: i <= k < |before| ==> threads[k] == before[k]
    {
      threads := threads[i := threads[i].(running := false)];
    }
  }

  method CloseAll(before: seq<LoadedImage>, at: Time) returns (images: seq<LoadedImage>)
    ensures images == ClosedImages(before, at)
  {
    images := before;
    for i := 0 to |images|
      invariant |images| == |before|
      invariant forall k :: 0 <= k < i ==> images[k] == ClosedImages(before, at)[k]
      invariant forall k :: i <= k < |before| ==> images[k] == before[k]
    {
      if images[i].loaded {
        images := images[i := images[i].(loaded := false, unloadTime := at)];
      }
    }
  }

  method FindLoaded(images: seq<LoadedImage>, base: nat) returns (found: bool)
    ensures found == HasLoaded(images, base)
  {
    for i := 0 to |images|
      invariant forall k :: 0 <= k < i ==> !(images[k].loaded && images[k].baseAddress == base)
    {
      if images[i].loaded && images[i].baseAddress == base {
        return true;
      }
    }
    return false;
  }

  /** ImageLoad's callback. */
  method InsertImage(c: ProcessContext, image: LoadedImage) returns (process: ProcessContext)
    ensures process == LoadImage(c, image)
  {
    process := c;
    if !process.running {
      return;
    }
    var found := FindLoaded(process.images, image.baseAddress);
    if !found {
      process := process.(images := process.images + [image]);
    }
  }

  method UnloadAll(before: seq<LoadedImage>, base: nat, now: Time) returns (images: seq<LoadedImage>)
    ensures images == UnloadedImages(before, base, now)
  {
    images := before;
    for i := 0 to |images|
      invariant |images| == |before|
      invariant forall k :: 0 <= k < i ==> images[k] == UnloadedImages(before, base, now)[k]
      invariant forall k :: i <= k < |before| ==> images[k] == before[k]
    {
      if images[i].loaded && images[i].baseAddress == base {
        images := images[i := images[i].(loaded := false, unloadTime := now)];
      }
    }
  }

  method FindRunning(threads: seq<ThreadContext>, tid: nat) returns (found: bool)
    ensures found == HasRunning(threads, tid)
  {
    for i := 0 to |threads|
      invariant forall k :: 0 <= k < i ==> !(threads[k].running && threads[k].tid == tid)
    {
      if threads[i].tid == tid && threads[i].running {
        return true;
      }
    }
    return false;
  }

  /** ThreadStart's callback. */
  method InsertThread(c: ProcessContext, thread: ThreadContext) returns (process: ProcessContext)
    ensures process == StartThread(c, thread)
  {
    process := c;
    if !process.running {
      return;
    }
    var found := FindRunning(process.threads, thread.tid);
    if !found {
      process := process.(threads := process.threads + [thread]);
    }
  }

  method EndAll(before: seq<ThreadContext>, tid: nat) returns (threads: seq<ThreadContext>)
    ensures threads == EndedThreads(before, tid)
  {
    threads := before;
    for i := 0 to |threads|
      invariant |threads| == |before|
      invariant forall k :: 0 <= k < i ==> threads[k] == EndedThreads(before, tid)[k]
      invariant forall k :: i <= k < |before| ==> threads[k] == before[k]
    {
      if threads[i].tid == tid && threads[i].running {
        threads := threads[i := threads[i].(running := false)];
      }
    }
  }

  // ---------------------------------------------------------------------------------------------
  // What each handler does to the store.

  function StartedContext(ev: ProcessEvent): ProcessContext {
    var ticks := ev.createTime.GetOr(0);
    Enriched(NEW_CONTEXT.(
      pid := ev.processId.GetOr(0), createTimeTicks := ticks, startTime := FromFileTime(ticks),
      parentPid := ev.parentProcessId.GetOr(0), processSequenceNumber := ev.sequenceNumber.GetOr(0),
      image := ev.imageName.GetOr(""), integritySid := ev.mandatoryLabel.GetOr("")), ev.live)
  }

  function BootstrapContext(ev: ProcessEvent): ProcessContext {
    Enriched(NEW_CONTEXT.(
      pid := ev.processId.GetOr(0), parentPid := ev.parentProcessId.GetOr(0), commandLine := ev.commandLine), ev.live)
  }

  ghost function AfterStart(s: Store, ev: ProcessEvent): (r: Store)
    requires s.nextKey < U64
    ensures r.nextKey < U64
  {
    if ev.processId.None? || ev.createTime.GetOr(0) == 0 || !ev.inJob then s
    else Registered(s, ev.inJob, StartedContext(ev)).0
  }

  ghost function AfterBootstrap(s: Store, ev: ProcessEvent): (r: Store)
    requires s.nextKey < U64
    ensures r.nextKey < U64
  {
    Registered(s, ev.inJob, BootstrapContext(ev)).0
  }

  /** ResolveProcess: the newest lifetime, or one bootstrapped from the live process. */
  ghost function Resolved(s: Store, ev: ProcessEvent): (r: (Store, Option<nat>))
    requires s.nextKey < U64
    ensures r.0.nextKey < U64
  {
    if ev.processId.None? || !ev.inJob then (s, None)
    else match FindKey(s.contexts, ev.processId.value, 0)
      case Some(k) => (s, Some(k))
      case None =>
        var (s', r) := Registered(s, ev.inJob, Enriched(NEW_CONTEXT.(pid := ev.processId.value), ev.live));
        (s', if r.Some? then Some(r.value.key) else None)
  }

  ghost function AfterStop(s: Store, ev: ProcessEvent): Store {
    if ev.processId.None? || ev.createTime.GetOr(0) == 0 then s
    else match FindKey(s.contexts, ev.processId.value, ev.createTime.value)
      case None => s
      case Some(k) =>
        if k !in s.contexts || !s.contexts[k].running then s
        else s.(contexts := Updated(s.contexts, k, StopContext(s.contexts[k], ev.exitCode, ev.exitTime)).0)
  }

  /** The change a thread or image event makes to the context it is resolved to; None if it lacks a field it needs. */
  function ContextChange(kind: Kind, ev: ProcessEvent, c: ProcessContext): Option<ProcessContext> {
    match kind
    case ImageLoad =>
      if ev.imageBase.GetOr(0) == 0 then None
      else Some(LoadImage(c, LoadedImage(ev.now, ev.imageName.GetOr(""), ev.imageBase.value, ev.imageSize.GetOr(0),
        true, 0)))
    case ImageUnload =>
      if ev.imageBase.None? then None else Some(c.(images := UnloadedImages(c.images, ev.imageBase.value, ev.now)))
    case ThreadStart =>
      if ev.threadId.GetOr(0) == 0 then None
      else Some(StartThread(c, ThreadContext(ev.threadId.value, ev.startAddress.GetOr(0), true)))
    case ThreadStop =>
      if ev.threadId.None? then None else Some(c.(threads := EndedThreads(c.threads, ev.threadId.value)))
    case _ => None
  }

  /** The change is the one described, if there is one; none is described otherwise. */
  lemma ChangeIsExact(kind: Kind, ev: ProcessEvent, c: ProcessContext)
    requires kind.ImageLoad? || kind.ImageUnload? || kind.ThreadStart? || kind.ThreadStop?
    ensures Changes(kind, ev, c, ContextChange(kind, ev, c).GetOr(c))
  {
  }

  // What the registering handlers hand to the store.

  /** The live process, if it is the lifetime created at `ticks` and not one that reuses its process id. */
  function LiveAs(ev: ProcessEvent, ticks: nat): Option<Live> {
    if ev.live.Some? && ev.live.value.created == ticks then ev.live else None
  }

  /** A start or rundown registers what the event says; the live process adds its image if the event names none, and
      the user. */
  lemma StartedIs(ev: ProcessEvent)
    requires ev.createTime.Some? && ev.createTime.value != 0
    ensures var ticks := ev.createTime.value;
            var live := LiveAs(ev, ticks);
            StartedContext(ev) == ProcessContext(
              ev.processId.GetOr(0), ev.parentProcessId.GetOr(0), 0,
              if ev.imageName.GetOr("") != "" then ev.imageName.GetOr("")
              else (match live case Some(l) => l.image.GetOr("") case None => ""),
              "", match live case Some(l) => l.userSid.GetOr("") case None => "",
              FromFileTime(ticks), ticks, ev.sequenceNumber.GetOr(0), ev.mandatoryLabel.GetOr(""),
              true, None, 0, [], [], [])
  {
  }

  /** The root process is registered with what the live process tells of it; without one nothing can be. */
  lemma RootIs(ev: ProcessEvent)
    ensures match ev.live
            case None => BootstrapContext(ev).createTimeTicks == 0
            case Some(l) =>
              BootstrapContext(ev) == ProcessContext(
                ev.processId.GetOr(0), ev.parentProcessId.GetOr(0), 0, l.image.GetOr(""), ev.commandLine,
                l.userSid.GetOr(""), FromFileTime(l.created), l.created, 0, "", true, None, 0, [], [], [])
  {
  }

  ghost function AfterDetail(s: Store, kind: Kind, ev: ProcessEvent): (r: Store)
    requires s.nextKey < U64
    ensures r.nextKey < U64
  {
    match Resolved(s, ev)
    case (s', None) => s'
    case (s', Some(k)) =>
      if k !in s'.contexts then s'
      else match ContextChange(kind, ev, s'.contexts[k])
        case None => s'
        case Some(c) => s'.(contexts := Updated(s'.contexts, k, c).0)
  }

  ghost function Step(s: Store, kind: Kind, ev: ProcessEvent): (r: Store)
    requires s.nextKey < U64
    ensures r.nextKey < U64
  {
    match kind
    case Start | Rundown => AfterStart(s, ev)
    case Bootstrap => AfterBootstrap(s, ev)
    case Stop => AfterStop(s, ev)
    case ThreadStart | ThreadStop | ImageLoad | ImageUnload => AfterDetail(s, kind, ev)
    case Ignored => s
  }

  // ---------------------------------------------------------------------------------------------
  // The handlers.

  /** What the handlers need of the store: identities are unique and a key is left. */
  ghost predicate Ready(store: ProcessContextStore)
    reads store
  {
    store.State().Valid() && UniqueIdentity(store.contexts) && |store.contexts| < U64 - 1
  }

  method RegisterProcessEvent(store: ProcessContextStore, ev: ProcessEvent)
    requires Ready(store)
    modifies store
    ensures store.State() == AfterStart(old(store.State()), ev)
  {
    if ev.processId.None? || ev.createTime.None? || ev.createTime.value == 0 {
      return;
    }
    if !ev.inJob {
      return;
    }
    var process := NEW_CONTEXT.(pid := ev.processId.value);
    process := process.(createTimeTicks := ev.createTime.value);
    process := process.(startTime := FromFileTime(ev.createTime.value));
    if ev.parentProcessId.Some? {
      process := process.(parentPid := ev.parentProcessId.value);
    }
    if ev.sequenceNumber.Some? {
      process := process.(processSequenceNumber := ev.sequenceNumber.value);
    }
    if ev.imageName.Some? {
      process := process.(image := ev.imageName.value);
    }
    if ev.mandatoryLabel.Some? {
      process := process.(integritySid := ev.mandatoryLabel.value);
    }
    process := EnrichLiveProcess(process, ev.live);
    var _ := store.Register(ev.inJob, process);
  }

  method BootstrapRootProcess(store: ProcessContextStore, ev: ProcessEvent) returns (known: bool)
    requires Ready(store)
    modifies store
    ensures store.State() == AfterBootstrap(old(store.State()), ev)
    ensures known <==>
              ev.inJob && ev.processId.GetOr(0) != 0 && ev.live.Some? && ev.live.value.created != 0
  {
    var process := NEW_CONTEXT.(pid := ev.processId.GetOr(0), parentPid := ev.parentProcessId.GetOr(0),
                                commandLine := ev.commandLine);
    process := EnrichLiveProcess(process, ev.live);
    var r := store.Register(ev.inJob, process);
    known := r.Some?;
  }

  method ResolveProcess(store: ProcessContextStore, ev: ProcessEvent) returns (key: Option<nat>)
    requires Ready(store)
    modifies store
    ensures (store.State(), key) == Resolved(old(store.State()), ev)
    ensures store.State().Valid()
    ensures key.Some? ==> key.value in store.contexts
  {
    if ev.processId.None? || !ev.inJob {
      return None;
    }
    key := store.FindProcessKey(ev.processId.value, 0);
    if key.Some? {
      return;
    }
    var process := NEW_CONTEXT.(pid := ev.processId.value);
    process := EnrichLiveProcess(process, ev.live);
    var r := store.Register(ev.inJob, process);
    return if r.Some? then Some(r.value.key) else None;
  }

  method ProcessStopHandler(store: ProcessContextStore, ev: ProcessEvent)
    requires Ready(store)
    modifies store
    ensures store.State() == AfterStop(old(store.State()), ev)
  {
    if ev.processId.None? || ev.createTime.None? || ev.createTime.value == 0 {
      return;
    }
    var key := store.FindProcessKey(ev.processId.value, ev.createTime.value);
    if key.None? {
      return;
    }
    var previous := store.Find(key.value);
    if previous.None? || !previous.value.running {
      return;
    }
    var updated := CloseLifetime(previous.value, ev.exitCode, ev.exitTime);
    var _ := store.Update(key.value, Some(_ => updated));
  }

  method ImageLoadHandler(store: ProcessContextStore, ev: ProcessEvent)
    requires Ready(store)
    modifies store
    ensures store.State() == AfterDetail(old(store.State()), ImageLoad, ev)
  {
    var key := ResolveProcess(store, ev);
    if key.None? || ev.imageBase.None? || ev.imageBase.value == 0 {
      return;
    }
    var image := LoadedImage(ev.now, ev.imageName.GetOr(""), ev.imageBase.value, ev.imageSize.GetOr(0), true, 0);
    hide LoadImage;
    var process := InsertImage(store.contexts[key.value], image);
    var _ := store.Update(key.value, Some(_ => process));
  }

  method ImageUnloadHandler(store: ProcessContextStore, ev: ProcessEvent)
    requires Ready(store)
    modifies store
    ensures store.State() == AfterDetail(old(store.State()), ImageUnload, ev)
  {
    var key := ResolveProcess(store, ev);
    if key.None? || ev.imageBase.None? {
      return;
    }
    hide UnloadedImages;
    var process := store.contexts[key.value];
    var images := UnloadAll(process.images, ev.imageBase.value, ev.now);
    var _ := store.Update(key.value, Some((c: ProcessContext) => c.(images := images)));
  }

  method ThreadStartHandler(store: ProcessContextStore, ev: ProcessEvent)
    requires Ready(store)
    modifies store
    ensures store.State() == AfterDetail(old(store.State()), ThreadStart, ev)
  {
    var key := ResolveProcess(store, ev);
    if key.None? || ev.threadId.None? || ev.threadId.value == 0 {
      return;
    }
    hide StartThread;
    var process := InsertThread(store.contexts[key.value],
      ThreadContext(ev.threadId.value, ev.startAddress.GetOr(0), true));
    var _ := store.Update(key.value, Some(_ => process));
  }

  method ThreadStopHandler(store: ProcessContextStore, ev: ProcessEvent)
    requires Ready(store)
    modifies store
    ensures store.State() == AfterDetail(old(store.State()), ThreadStop, ev)
  {
    var key := ResolveProcess(store, ev);
    if key.None? || ev.threadId.None? {
      return;
    }
    hide EndedThreads;
    var process := store.contexts[key.value];
    var threads := EndAll(process.threads, ev.threadId.value);
    var _ := store.Update(key.value, Some((c: ProcessContext) => c.(threads := threads)));
  }

  /** The provider's callback. */
  method OnProcessEvent(store: ProcessContextStore, eventId: nat, ev: ProcessEvent)
    requires Ready(store)
    modifies store
    ensures store.State() == Step(old(store.State()), KindOf(eventId), ev)
    ensures store.State() ==
            if eventId == 1 || eventId == 15 then AfterStart(old(store.State()), ev)
            else if eventId == 2 then AfterStop(old(store.State()), ev)
            else if eventId == 5 then AfterDetail(old(store.State()), ImageLoad, ev)
            else if eventId == 6 then AfterDetail(old(store.State()), ImageUnload, ev)
            else old(store.State())
  {
    match eventId {
      case 1 => RegisterProcessEvent(store, ev);
      case 2 => ProcessStopHandler(store, ev);
      case 5 => ImageLoadHandler(store, ev);
      case 6 => ImageUnloadHandler(store, ev);
      case 15 => RegisterProcessEvent(store, ev);
      case _ =>
    }
  }
}
