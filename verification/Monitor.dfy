/** The two providers on one store: theorems about every run of interleaved process and file events. */
module Monitor {
  import opened Prelude
  import opened ProcessStore
  import opened ProcessHandlers
  import opened Lifetimes
  import opened FileCorrelation
  import FileHistory

  datatype Input = Process(kind: Kind, event: ProcessEvent) | File(file: FileInput)

  datatype State = State(store: Store, maps: Maps, reexecutionRequested: bool)

  const INITIAL := State(Store(map[], 1), NO_MAPS, false)

  ghost function Next(s: State, i: Input): (t: State)
    requires s.store.nextKey < U64
    ensures t.store.nextKey < U64
  {
    match i
    case Process(kind, ev) => s.(store := Step(s.store, kind, ev))
    case File(e) =>
      State(s.store.(contexts := AfterRecord(s.store.contexts, s.maps, e)), Handle(s.maps, e).0,
            s.reexecutionRequested || !Handle(s.maps, e).1)
  }

  /** The state after a run, from the empty store. */
  ghost function Run(es: seq<Input>): (s: State)
    ensures s.store.nextKey < U64
  {
    if es == [] then INITIAL else Next(Run(es[..|es| - 1]), es[|es| - 1])
  }

  /** Short of 2^64 events. */
  predicate Feasible(es: seq<Input>) {
    |es| + 1 < U64
  }

  // ---------------------------------------------------------------------------------------------
  // One step.

  /** A context that gained at most file events. */
  predicate OnlyFilesDiffer(before: ProcessContext, after: ProcessContext) {
    after == before.(files := after.files)
  }

  /** What event e adds to the history of lifetime k. */
  ghost function Appended(s: Store, m: Maps, e: FileInput, k: nat): seq<FileEvent> {
    if Recordable(e) && FindKey(s.contexts, e.processId, 0) == Some(k) then [RecordOf(m, e)] else []
  }

  lemma RecordStep(s: Store, m: Maps, e: FileInput)
    requires Invariant(s)
    ensures var after := AfterRecord(s.contexts, m, e);
            && Invariant(s.(contexts := after)) && after.Keys == s.contexts.Keys
            && (forall k :: k in s.contexts ==> OnlyFilesDiffer(s.contexts[k], after[k]))
            && (forall k :: k in s.contexts ==> after[k].files == s.contexts[k].files + Appended(s, m, e, k))
  {
    hide RecordOf;
    hide FindKey;
    var found := FindKey(s.contexts, e.processId, 0);
    if found.Some? { FoundKeyMatches(s.contexts, e.processId, 0); }
    if Recordable(e) && found.Some? {
      var c := s.contexts[found.value];
      var d := c.(files := c.files + [RecordOf(m, e)]);
      FilesKeep(s, found.value, d);
      hide Invariant;
      assert AfterRecord(s.contexts, m, e) == s.contexts[found.value := d];
    } else {
      assert AfterRecord(s.contexts, m, e) == s.contexts;
    }
  }

  lemma FilesKeep(s: Store, k: nat, d: ProcessContext)
    requires Invariant(s) && k in s.contexts && OnlyFilesDiffer(s.contexts[k], d)
    ensures Invariant(s.(contexts := s.contexts[k := d]))
    ensures d.pid == s.contexts[k].pid && d.uniqueProcessKey == k
  {
    assert Sound(d);
    hide Sound;
  }

  /** What time can do to a lifetime: it keeps its identity and what is known of it, and a stop is final. */
  predicate Ages(before: ProcessContext, after: ProcessContext) {
    && SameLifetime(after, before.pid, before.createTimeTicks) && after.startTime == before.startTime
    && KeepsKnown(before, after)
    && (after.running ==> before.running)
    && (!before.running ==> !after.running && after.exitCode == before.exitCode && after.exitTime == before.exitTime
                            && after.images == before.images && after.threads == before.threads)
  }

  lemma StepAges(s: State, i: Input)
    requires Invariant(s.store) && s.store.nextKey + 1 < U64
    ensures Invariant(Next(s, i).store) && s.store.nextKey <= Next(s, i).store.nextKey <= s.store.nextKey + 1
    ensures forall k :: k in s.store.contexts ==>
              k in Next(s, i).store.contexts && Ages(s.store.contexts[k], Next(s, i).store.contexts[k])
  {
    match i {
      case Process(kind, ev) =>
        hide Step;
        StepKeeps(s.store, kind, ev);
        var t := Step(s.store, kind, ev);
        DenseKeysGrow(s.store, t);
        hide Invariant;
        hide Ages;
        forall k | k in s.store.contexts ensures k in t.contexts && Ages(s.store.contexts[k], t.contexts[k]) {
          EvolvedAges(s.store.contexts[k], t.contexts[k]);
        }
      case File(e) => RecordStep(s.store, s.maps, e);
    }
  }

  lemma EvolvedAges(before: ProcessContext, after: ProcessContext)
    requires Evolves(before, after) && KeepsKnown(before, after)
    ensures Ages(before, after)
  {
  }

  lemma DenseKeysGrow(s: Store, t: Store)
    requires Invariant(s) && Invariant(t) && s.contexts.Keys <= t.contexts.Keys
    ensures s.nextKey <= t.nextKey
  {
    if s.nextKey > 1 {
      assert s.nextKey - 1 in s.contexts;
    }
  }

  // ---------------------------------------------------------------------------------------------
  // Every reachable state.

  /** Identities are unique, keys dense and nonzero, lifetimes sound, in every reachable state. */
  lemma {:induction false} ReachableInvariant(es: seq<Input>)
    requires Feasible(es)
    ensures Invariant(Run(es).store) && Run(es).store.nextKey <= |es| + 1
  {
    if es != [] {
      var front := es[..|es| - 1];
      ReachableInvariant(front);
      StepAges(Run(front), es[|es| - 1]);
    }
  }

  /** So a lookup has one answer, the exact or the newest lifetime, in whatever order the map is visited. */
  lemma LookupIsDetermined(es: seq<Input>, pid: nat, ticks: nat, k: nat)
    requires Feasible(es)
    ensures var contexts := Run(es).store.contexts;
            && (IsNewest(contexts, pid, ticks, k) <==> FindKey(contexts, pid, ticks) == Some(k))
            && (FindKey(contexts, pid, ticks) == None <==>
              forall j :: j in contexts ==> !Matches(contexts[j], pid, ticks))
  {
    ReachableInvariant(es);
    var contexts := Run(es).store.contexts;
    if IsNewest(contexts, pid, ticks, k) {
      FindKeyIs(contexts, pid, ticks, k);
    }
    if j :| j in contexts && Matches(contexts[j], pid, ticks) {
      NewestExists(contexts, pid, ticks, j);
    }
  }

  /** The key event n issued, if it registered a new lifetime. */
  ghost function Issued(es: seq<Input>, n: nat): Option<nat>
    requires n < |es|
  {
    var before, after := Run(es[..n]).store, Run(es[..n + 1]).store;
    if after.contexts.Keys == before.contexts.Keys then None
    else if k :| k in after.contexts && k !in before.contexts then Some(k) else None
  }

  lemma {:induction false} RunGrows(es: seq<Input>, n: nat)
    requires Feasible(es) && n <= |es|
    ensures Run(es[..n]).store.nextKey <= Run(es).store.nextKey
    decreases |es|
  {
    if n == |es| {
      assert es[..n] == es;
    } else {
      var front := es[..|es| - 1];
      assert front[..n] == es[..n];
      RunGrows(front, n);
      ReachableInvariant(front);
      StepAges(Run(front), es[|es| - 1]);
    }
  }

  lemma IssuedIsNext(es: seq<Input>, n: nat)
    requires Feasible(es) && n < |es| && Issued(es, n).Some?
    ensures Issued(es, n).value == Run(es[..n]).store.nextKey > 0
    ensures Run(es[..n + 1]).store.nextKey == Issued(es, n).value + 1
  {
    ReachableInvariant(es[..n]);
    assert es[..n + 1][..n] == es[..n];
    StepAges(Run(es[..n]), es[n]);
  }

  /** Keys are issued in strictly increasing order. */
  lemma KeysIncrease(es: seq<Input>, n: nat, m: nat)
    requires Feasible(es) && n < m < |es|
    requires Issued(es, n).Some? && Issued(es, m).Some?
    ensures 0 < Issued(es, n).value < Issued(es, m).value
  {
    IssuedIsNext(es, n);
    IssuedIsNext(es, m);
    assert es[..m][..n + 1] == es[..n + 1];
    RunGrows(es[..m], n + 1);
  }

  /** A lifetime stays in the store and never forgets a field it knows; a stopped one stays stopped and keeps
      its exit, images and threads, whatever rundown, image, thread or stop events arrive later. */
  lemma {:induction false} StoppedStaysStopped(es: seq<Input>, n: nat, k: nat)
    requires Feasible(es) && n <= |es|
    requires k in Run(es[..n]).store.contexts
    ensures k in Run(es).store.contexts
    ensures Ages(Run(es[..n]).store.contexts[k], Run(es).store.contexts[k])
    decreases |es|
  {
    if n == |es| {
      assert es[..n] == es;
    } else {
      var front := es[..|es| - 1];
      assert front[..n] == es[..n];
      StoppedStaysStopped(front, n, k);
      ReachableInvariant(front);
      StepAges(Run(front), es[|es| - 1]);
    }
  }

  // ---------------------------------------------------------------------------------------------
  // Stops.

  /** A stop event changes at most the running lifetime with exactly its process id and creation time. */
  lemma StopIsExact(s: Store, ev: ProcessEvent, k: nat)
    requires Invariant(s) && k in s.contexts
    ensures k in AfterStop(s, ev).contexts
    ensures AfterStop(s, ev).contexts[k] ==
            if ev.processId.Some? && ev.createTime.GetOr(0) != 0 && s.contexts[k].running
               && SameLifetime(s.contexts[k], ev.processId.value, ev.createTime.value)
            then StopContext(s.contexts[k], ev.exitCode, ev.exitTime)
            else s.contexts[k]
    ensures Closed(s.contexts[k], StopContext(s.contexts[k], ev.exitCode, ev.exitTime), ev.exitCode, ev.exitTime)
  {
    StopCloses(s.contexts[k], ev.exitCode, ev.exitTime);
    hide Closed;
    hide StopContext;
    if ev.processId.Some? && ev.createTime.GetOr(0) != 0 {
      var pid, ticks := ev.processId.value, ev.createTime.value;
      var found := FindKey(s.contexts, pid, ticks);
      if found.Some? {
        FoundKeyMatches(s.contexts, pid, ticks);
        if s.contexts[found.value].running {
          StopKeepsKey(s.contexts[found.value], ev);
        }
      }
      if SameLifetime(s.contexts[k], pid, ticks) {
        NewestExists(s.contexts, pid, ticks, k);
      }
    }
  }

  lemma StopKeepsKey(c: ProcessContext, ev: ProcessEvent)
    ensures var d := StopContext(c, ev.exitCode, ev.exitTime);
            d.pid == c.pid && d.uniqueProcessKey == c.uniqueProcessKey
  {
  }

  /** Event n is the stop that ended lifetime k: it names k exactly, and k was running before it. */
  ghost predicate EndedBy(es: seq<Input>, k: nat, n: nat) {
    && n < |es| && es[n].Process? && es[n].kind == Stop
    && k in Run(es[..n]).store.contexts && Run(es[..n]).store.contexts[k].running
    && es[n].event.processId.Some? && es[n].event.createTime.GetOr(0) != 0
    && SameLifetime(Run(es[..n]).store.contexts[k], es[n].event.processId.value, es[n].event.createTime.value)
  }

  /** Only a stop ends a lifetime. */
  lemma OnlyStopsEnd(s: State, i: Input, k: nat)
    requires Invariant(s.store) && s.store.nextKey + 1 < U64
    requires k in s.store.contexts && s.store.contexts[k].running
    requires k in Next(s, i).store.contexts && !Next(s, i).store.contexts[k].running
    ensures i.Process? && i.kind == Stop
  {
    match i {
      case File(e) => RecordStep(s.store, s.maps, e);
      case Process(kind, ev) =>
        match kind {
          case Start | Rundown => StartedIsBlank(ev);
          case Bootstrap => StartedIsBlank(ev);
          case ThreadStart | ThreadStop | ImageLoad | ImageUnload =>
            DetailRuns(s.store, kind, ev, k);
          case Stop | Ignored =>
        }
    }
  }

  lemma DetailRuns(s: Store, kind: Kind, ev: ProcessEvent, k: nat)
    requires Invariant(s) && s.nextKey + 1 < U64 && k in s.contexts && s.contexts[k].running
    ensures k in AfterDetail(s, kind, ev).contexts && AfterDetail(s, kind, ev).contexts[k].running
  {
    ResolveKeeps(s, ev);
    ResolveRuns(s, ev, k);
    DetailKeeps(s, kind, ev);
    hide Resolved;
    hide ContextChange;
    hide Invariant;
    hide StoreEvolves;
    var (s', key) := Resolved(s, ev);
    if key.Some? && ContextChange(kind, ev, s'.contexts[key.value]).Some? {
      DetailKeepsRunning(kind, ev, s'.contexts[key.value]);
    }
  }

  lemma ResolveRuns(s: Store, ev: ProcessEvent, k: nat)
    requires Invariant(s) && k in s.contexts && s.contexts[k].running
    ensures k in Resolved(s, ev).0.contexts && Resolved(s, ev).0.contexts[k].running
  {
    DenseKey(s);
  }

  /** Exit code and exit time of a stopped lifetime are those of the one stop event that ended it,
      the first one to name it while it ran. */
  lemma {:induction false} ExitIsFirstStops(es: seq<Input>, k: nat) returns (n: nat)
    requires Feasible(es)
    requires k in Run(es).store.contexts && !Run(es).store.contexts[k].running
    ensures EndedBy(es, k, n)
    ensures var c, ev := Run(es).store.contexts[k], es[n].event;
            && c.exitCode == ev.exitCode
            && c.exitTime == if ev.exitTime.Some? then FromFileTime(ev.exitTime.value) else 0
  {
    var last := |es| - 1;
    var front := es[..last];
    ReachableInvariant(front);
    var s := Run(front);
    StepAges(s, es[last]);
    if k in s.store.contexts && !s.store.contexts[k].running {
      n := ExitIsFirstStops(front, k);
      assert front[..n] == es[..n];
    } else {
      n := last;
      EndsHere(s, es[last], k);
    }
  }

  lemma EndsHere(s: State, i: Input, k: nat)
    requires Invariant(s.store) && s.store.nextKey + 1 < U64
    requires k in s.store.contexts ==> s.store.contexts[k].running
    requires k in Next(s, i).store.contexts && !Next(s, i).store.contexts[k].running
    ensures k in s.store.contexts && i.Process? && i.kind == Stop
    ensures i.event.processId.Some? && i.event.createTime.GetOr(0) != 0
    ensures SameLifetime(s.store.contexts[k], i.event.processId.value, i.event.createTime.value)
    ensures var c, ev := Next(s, i).store.contexts[k], i.event;
            && c.exitCode == ev.exitCode
            && c.exitTime == if ev.exitTime.Some? then FromFileTime(ev.exitTime.value) else 0
  {
    if k !in s.store.contexts {
      match i {
        case Process(kind, ev) => StepKeeps(s.store, kind, ev);
        case File(e) => RecordStep(s.store, s.maps, e);
      }
      assert false;
    }
    OnlyStopsEnd(s, i, k);
    StopIsExact(s.store, i.event, k);
  }

  /** No other stop event ends the same lifetime. */
  lemma EndedOnce(es: seq<Input>, k: nat, n: nat, m: nat)
    requires Feasible(es) && EndedBy(es, k, n) && EndedBy(es, k, m)
    ensures n == m
  {
    if n < m {
      EndedBefore(es, k, n, m);
    } else if m < n {
      EndedBefore(es, k, m, n);
    }
  }

  lemma EndedBefore(es: seq<Input>, k: nat, n: nat, m: nat)
    requires Feasible(es) && n < m <= |es| && EndedBy(es, k, n)
    ensures k in Run(es[..m]).store.contexts && !Run(es[..m]).store.contexts[k].running
  {
    hide Run;
    StopEnds(es, k, n);
    assert es[..m][..n + 1] == es[..n + 1];
    StoppedStaysStopped(es[..m], n + 1, k);
  }

  lemma StopEnds(es: seq<Input>, k: nat, n: nat)
    requires Feasible(es) && EndedBy(es, k, n)
    ensures k in Run(es[..n + 1]).store.contexts && !Run(es[..n + 1]).store.contexts[k].running
  {
    hide Invariant;
    hide AfterStop;
    assert es[..n + 1][..n] == es[..n] && es[..n + 1][n] == es[n];
    var s := Run(es[..n]);
    assert Run(es[..n + 1]) == Next(s, es[n]);
    hide Run;
    ReachableInvariant(es[..n]);
    StopIsExact(s.store, es[n].event, k);
  }

  // ---------------------------------------------------------------------------------------------
  // File history.

  /** The lifetime event n is recorded for: the newest of its process id at that moment. */
  ghost function Attributed(es: seq<Input>, n: nat): Option<nat>
    requires n < |es|
  {
    if es[n].File? && Recordable(es[n].file)
    then FindKey(Run(es[..n]).store.contexts, es[n].file.processId, 0) else None
  }

  /** The records of the events attributed to k, in order, each with the paths known before the event. */
  ghost function Projection(es: seq<Input>, k: nat): seq<FileEvent> {
    if es == [] then []
    else
      var n := |es| - 1;
      Projection(es[..n], k) + if Attributed(es, n) == Some(k) then [RecordOf(Run(es[..n]).maps, es[n].file)] else []
  }

  /** In every interleaving, the file history of each lifetime is exactly that projection of the run:
      nothing lost, duplicated or moved to another lifetime. */
  lemma {:induction false} FileHistoryIsProjection(es: seq<Input>, k: nat)
    requires Feasible(es)
    ensures k in Run(es).store.contexts ==> Run(es).store.contexts[k].files == Projection(es, k)
    ensures k !in Run(es).store.contexts ==> Projection(es, k) == []
  {
    if es != [] {
      var n := |es| - 1;
      var front := es[..n];
      FileHistoryIsProjection(front, k);
      ReachableInvariant(front);
      var s := Run(front);
      match es[n] {
        case Process(kind, ev) => StepKeeps(s.store, kind, ev);
        case File(e) =>
          RecordStep(s.store, s.maps, e);
          if Attributed(es, n) == Some(k) { FoundKeyMatches(s.store.contexts, e.processId, 0); }
      }
    }
  }

  /** The projection holds one record for each attributed event: the histories of all lifetimes together
      hold as many records as events were attributed. */
  ghost function AttributedCount(es: seq<Input>): nat {
    if es == [] then 0
    else AttributedCount(es[..|es| - 1]) + if Attributed(es, |es| - 1).Some? then 1 else 0
  }

  ghost function TotalRecords(es: seq<Input>, upTo: nat): nat {
    if upTo == 0 then 0 else TotalRecords(es, upTo - 1) + |Projection(es, upTo)|
  }

  lemma {:induction false} TotalStep(es: seq<Input>, upTo: nat)
    requires es != []
    ensures var n := |es| - 1;
            TotalRecords(es, upTo) == TotalRecords(es[..n], upTo) +
              match Attributed(es, n) case Some(k) => (if 0 < k <= upTo then 1 else 0) case None => 0
    decreases upTo
  {
    hide Attributed;
    hide Run;
    hide RecordOf;
    if upTo > 0 {
      TotalStep(es, upTo - 1);
      ProjectionStep(es, upTo);
    }
  }

  lemma ProjectionStep(es: seq<Input>, k: nat)
    requires es != []
    ensures var n := |es| - 1;
            |Projection(es, k)| == |Projection(es[..n], k)| + if Attributed(es, n) == Some(k) then 1 else 0
  {
  }

  /** What the stored histories of the lifetimes 1, ..., upTo hold together. */
  function StoredRecords(contexts: Contexts, upTo: nat): nat {
    if upTo == 0 then 0
    else StoredRecords(contexts, upTo - 1) + if upTo in contexts then |contexts[upTo].files| else 0
  }

  lemma {:induction false} StoredIsProjected(es: seq<Input>, upTo: nat)
    requires Feasible(es)
    ensures StoredRecords(Run(es).store.contexts, upTo) == TotalRecords(es, upTo)
  {
    hide Run;
    hide Projection;
    if upTo > 0 {
      StoredIsProjected(es, upTo - 1);
      FileHistoryIsProjection(es, upTo);
    }
  }

  lemma {:induction false} ProjectionsCount(es: seq<Input>, upTo: nat)
    requires Feasible(es) && upTo >= |es|
    ensures TotalRecords(es, upTo) == AttributedCount(es)
    decreases |es|
  {
    if es == [] {
      NoRecords(upTo);
    } else {
      var n := |es| - 1;
      ProjectionsCount(es[..n], upTo);
      TotalStep(es, upTo);
      if Attributed(es, n).Some? {
        ReachableInvariant(es[..n]);
        FoundKeyMatches(Run(es[..n]).store.contexts, es[n].file.processId, 0);
      }
    }
  }

  /** The stored histories of all lifetimes - every key lies between 1 and |es| - together hold exactly one record per
      attributed event. */
  lemma RecordsAreConserved(es: seq<Input>)
    requires Feasible(es)
    ensures forall k :: k in Run(es).store.contexts ==> 0 < k <= |es|
    ensures StoredRecords(Run(es).store.contexts, |es|) == AttributedCount(es)
  {
    ReachableInvariant(es);
    StoredIsProjected(es, |es|);
    ProjectionsCount(es, |es|);
  }

  lemma {:induction false} NoRecords(upTo: nat)
    ensures TotalRecords([], upTo) == 0
  {
    if upTo > 0 {
      NoRecords(upTo - 1);
    }
  }

  // ---------------------------------------------------------------------------------------------
  // Alerts.

  function FilesOf(es: seq<Input>): seq<FileInput> {
    if es == [] then []
    else FilesOf(es[..|es| - 1]) + match es[|es| - 1] case File(e) => [e] case Process(_, _) => []
  }

  /** The maps depend on the file events alone, and the re-execution request stands exactly when the history of the
      file events makes one of them a violation. */
  lemma AlertIsHistory(es: seq<Input>)
    ensures Run(es).maps == FileHistory.Run(FilesOf(es))
    ensures Run(es).reexecutionRequested <==> exists n :: 0 <= n < |FilesOf(es)| && FileHistory.Offends(FilesOf(es), n)
  {
    AlertFolds(es);
    forall n | 0 <= n < |FilesOf(es)| ensures FileHistory.Violation(FilesOf(es), n) <==>
      FileHistory.Offends(FilesOf(es), n) {
      FileHistory.VerdictIsHistory(FilesOf(es), n);
    }
    hide Run;
    hide FileHistory.Violation;
    hide FileHistory.Offends;
  }

  lemma {:induction false} AlertFolds(es: seq<Input>)
    ensures Run(es).maps == FileHistory.Run(FilesOf(es))
    ensures Run(es).reexecutionRequested <==>
        exists n :: 0 <= n < |FilesOf(es)| && FileHistory.Violation(FilesOf(es), n)
  {
    if es != [] {
      var front, i := es[..|es| - 1], es[|es| - 1];
      AlertFolds(front);
      var fs, gs := FilesOf(front), FilesOf(es);
      if i.File? {
        MoreViolations(fs, i.file);
        assert gs == fs + [i.file];
      } else {
        assert gs == fs;
      }
      hide Handle;
      hide FileHistory.Violation;
    }
  }

  /** Event n raises the alert: a violation while no re-execution has been requested. */
  ghost predicate Alerts(es: seq<Input>, n: nat)
    requires n < |es|
  {
    var s := Run(es[..n]);
    es[n].File? && !Handle(s.maps, es[n].file).1 && !s.reexecutionRequested
  }

  lemma {:induction false} RequestStands(es: seq<Input>, n: nat)
    requires n < |es| && es[n].File? && !Handle(Run(es[..n]).maps, es[n].file).1
    ensures Run(es).reexecutionRequested
    decreases |es|
  {
    hide Handle;
    var front := es[..|es| - 1];
    if n < |front| {
      assert front[..n] == es[..n];
      RequestStands(front, n);
    }
  }

  /** The first violation of a run raises an alert and no other event does. */
  lemma AlertIsFirstViolation(es: seq<Input>, n: nat)
    requires n < |es|
    ensures Alerts(es, n) <==>
              && es[n].File? && !Handle(Run(es[..n]).maps, es[n].file).1
              && forall m :: 0 <= m < n && es[m].File? ==> Handle(Run(es[..m]).maps, es[m].file).1
  {
    hide Handle;
    hide Run;
    RequestIsAViolation(es[..n]);
    forall m | 0 <= m < n ensures es[..n][..m] == es[..m] {
    }
    if m :| 0 <= m < n && es[m].File? && !Handle(Run(es[..m]).maps, es[m].file).1 {
      RequestStands(es[..n], m);
    }
  }

  lemma {:induction false} RequestIsAViolation(es: seq<Input>)
    ensures Run(es).reexecutionRequested ==>
              exists m :: 0 <= m < |es| && es[m].File? && !Handle(Run(es[..m]).maps, es[m].file).1
  {
    hide Handle;
    if es != [] && Run(es).reexecutionRequested {
      var n := |es| - 1;
      var front := es[..n];
      if Run(front).reexecutionRequested {
        RequestIsAViolation(front);
        var m :| 0 <= m < n && front[m].File? && !Handle(Run(front[..m]).maps, front[m].file).1;
        assert front[..m] == es[..m] && front[m] == es[m];
      } else {
        assert es[n].File?;
      }
    }
  }

  lemma MoreViolations(fs: seq<FileInput>, e: FileInput)
    ensures FileHistory.Run(fs + [e]) == Handle(FileHistory.Run(fs), e).0
    ensures (exists n :: 0 <= n < |fs + [e]| && FileHistory.Violation(fs + [e], n)) <==>
            (exists n :: 0 <= n < |fs| && FileHistory.Violation(fs, n)) || !Handle(FileHistory.Run(fs), e).1
  {
    hide Handle;
    var gs := fs + [e];
    assert gs[..|fs|] == fs;
    forall n | 0 <= n < |fs| ensures FileHistory.Violation(gs, n) == FileHistory.Violation(fs, n) {
      assert gs[..n] == fs[..n] && gs[n] == fs[n];
    }
    assert FileHistory.Violation(gs, |fs|) <==> !Handle(FileHistory.Run(fs), e).1;
  }

  // ---------------------------------------------------------------------------------------------
  // What the file histories say.

  /** Event n is recorded for lifetime k: a listed operation of a process in the job, whose newest lifetime k is. */
  ghost predicate RecordedFor(es: seq<Input>, n: nat, k: nat)
    requires n < |es|
  {
    && es[n].File? && es[n].file.inJob && es[n].file.eventId in OPERATIONS
    && NewestOf(Run(es[..n]).store.contexts, es[n].file.processId, k)
  }

  /** The positions of the events recorded for k, in order. */
  ghost function RecordedEvents(es: seq<Input>, k: nat): (ns: seq<nat>)
    ensures forall i :: 0 <= i < |ns| ==> ns[i] < |es|
    ensures forall i, j :: 0 <= i < j < |ns| ==> ns[i] < ns[j]
  {
    if es == [] then []
    else
      var n := |es| - 1;
      RecordedEvents(es[..n], k) + if RecordedFor(es, n, k) then [n] else []
  }

  /** A record tells of event n, with the path the file events before it lead to. */
  ghost predicate TellsOf(record: FileEvent, es: seq<Input>, n: nat) {
    && n < |es| && es[n].File?
    && exists p :: FileHistory.PointsTo(FilesOf(es[..n]), es[n].file, p) && Describes(record, es[n].file, p)
  }

  lemma AttributedIs(es: seq<Input>, n: nat, k: nat)
    requires n < |es| && n + 1 < U64
    ensures Attributed(es, n) == Some(k) <==> RecordedFor(es, n, k)
  {
    hide Run;
    hide RecordOf;
    if es[n].File? {
      LookupIsDetermined(es[..n], es[n].file.processId, 0, k);
      ListedOperations(es[n].file);
    }
  }

  lemma RecordTells(es: seq<Input>, n: nat)
    requires n < |es| && es[n].File? && OperationOf(es[n].file.eventId).Some?
    ensures TellsOf(RecordOf(Run(es[..n]).maps, es[n].file), es, n)
  {
    hide Run;
    hide RecordOf;
    hide Describes;
    hide FileHistory.PointsTo;
    hide FileHistory.Offends;
    var e, fs := es[n].file, FilesOf(es[..n]);
    AlertIsHistory(es[..n]);
    var p := ResolveFilePath(FileHistory.Run(fs), e);
    FileHistory.ResolvedPoints(fs, e, p);
    RecordDescribes(Run(es[..n]).maps, e);
  }

  /** In every interleaving the file history of a lifetime holds one record for each event recorded for it, in order,
      and each record tells of its event: time, operation, path, offset and size. */
  lemma {:induction false} FileHistoryTells(es: seq<Input>, k: nat)
    requires Feasible(es) && k in Run(es).store.contexts
    ensures var files, ns := Run(es).store.contexts[k].files, RecordedEvents(es, k);
            |files| == |ns| && forall i :: 0 <= i < |files| ==> TellsOf(files[i], es, ns[i])
  {
    FileHistoryIsProjection(es, k);
    ProjectionTells(es, k);
  }

  lemma {:induction false} ProjectionTells(es: seq<Input>, k: nat)
    requires Feasible(es)
    ensures var files, ns := Projection(es, k), RecordedEvents(es, k);
            |files| == |ns| && forall i :: 0 <= i < |files| ==> TellsOf(files[i], es, ns[i])
  {
    hide Run;
    hide RecordOf;
    hide RecordedFor;
    hide Describes;
    if es != [] {
      var n := |es| - 1;
      var front := es[..n];
      ProjectionTells(front, k);
      AttributedIs(es, n, k);
      if Attributed(es, n) == Some(k) {
        RecordTells(es, n);
      }
      var files, ns := Projection(front, k), RecordedEvents(front, k);
      forall i | 0 <= i < |files| ensures TellsOf(files[i], es, ns[i]) {
        assert front[..ns[i]] == es[..ns[i]];
      }
      hide TellsOf;
    }
  }

  // ---------------------------------------------------------------------------------------------
  // The handlers themselves.

  /** Dense keys: there are as many lifetimes as keys issued. */
  lemma DenseSize(s: Store)
    requires Invariant(s)
    ensures |s.contexts| == s.nextKey - 1
  {
    var all := UpTo(s.nextKey - 1);
    assert s.contexts.Keys == all;
  }

  /** In every reachable state the store is ready for the next event. */
  lemma ReachableIsReady(es: seq<Input>)
    requires Feasible(es) && |es| + 2 < U64
    ensures var s := Run(es).store; s.Valid() && UniqueIdentity(s.contexts) && |s.contexts| < U64 - 1
  {
    ReachableInvariant(es);
    DenseSize(Run(es).store);
    hide Run;
  }

  method ObserveProcess(store: ProcessContextStore, kind: Kind, ev: ProcessEvent)
    requires Ready(store)
    modifies store
    ensures store.State() == Step(old(store.State()), kind, ev)
  {
    hide AfterStart;
    hide AfterBootstrap;
    hide AfterStop;
    hide AfterDetail;
    match kind {
      case Start => OnProcessEvent(store, 1, ev);
      case Stop => OnProcessEvent(store, 2, ev);
      case ImageLoad => OnProcessEvent(store, 5, ev);
      case ImageUnload => OnProcessEvent(store, 6, ev);
      case Rundown => OnProcessEvent(store, 15, ev);
      case ThreadStart => ThreadStartHandler(store, ev);
      case ThreadStop => ThreadStopHandler(store, ev);
      case Bootstrap => var _ := BootstrapRootProcess(store, ev);
      case Ignored => OnProcessEvent(store, 0, ev);
    }
  }

  /** The two providers' methods, fed a run of interleaved events on a new store, go through exactly the states the
      theorems are about, and raise the alert where they say. */
  method Observe(store: ProcessContextStore, provider: FileProvider, es: seq<Input>) returns (alerts: seq<bool>)
    requires store.State() == INITIAL.store && provider.State() == INITIAL.maps && !provider.reexecutionRequested
    requires |es| + 2 < U64
    modifies store, provider
    ensures State(store.State(), provider.State(), provider.reexecutionRequested) == Run(es)
    ensures |alerts| == |es| && forall n :: 0 <= n < |es| ==> (alerts[n] <==> Alerts(es, n))
  {
    hide Step;
    hide Handle;
    hide AfterRecord;
    hide UniqueIdentity;
    alerts := [];
    for n := 0 to |es|
      invariant State(store.State(), provider.State(), provider.reexecutionRequested) == Run(es[..n])
      invariant |alerts| == n && forall m :: 0 <= m < n ==> (alerts[m] <==> Alerts(es, m))
    {
      ReachableIsReady(es[..n]);
      assert es[..n + 1][..n] == es[..n] && es[..n + 1][n] == es[n];
      var alert := false;
      match es[n] {
        case Process(kind, ev) => ObserveProcess(store, kind, ev);
        case File(e) => alert := provider.OnFileEvent(store, e);
      }
      assert Run(es[..n + 1]) == Next(Run(es[..n]), es[n]);
      alerts := alerts + [alert];
    }
    assert es[..|es|] == es;
  }
}
