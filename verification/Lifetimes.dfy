/** What every step of the process handlers keeps, and what it cannot touch. */
module Lifetimes {
  import opened Prelude
  import opened ProcessStore
  import opened ProcessHandlers

  ghost predicate OneLoadedPerBase(images: seq<LoadedImage>) {
    forall i, j :: 0 <= i < j < |images| && images[i].loaded && images[j].loaded ==>
      images[i].baseAddress != images[j].baseAddress
  }

  ghost predicate OneRunningPerTid(threads: seq<ThreadContext>) {
    forall i, j :: 0 <= i < j < |threads| && threads[i].running && threads[j].running ==>
      threads[i].tid != threads[j].tid
  }

  predicate NothingLoaded(images: seq<LoadedImage>) {
    forall i :: 0 <= i < |images| ==> !images[i].loaded
  }

  predicate NothingRuns(threads: seq<ThreadContext>) {
    forall i :: 0 <= i < |threads| ==> !threads[i].running
  }

  /** One context: identified, at most one loaded image per base and one running thread per id,
      nothing loaded or running in a stopped process, and no exit in a running one. */
  ghost predicate Sound(c: ProcessContext) {
    && c.pid != 0 && c.createTimeTicks != 0
    && OneLoadedPerBase(c.images) && OneRunningPerTid(c.threads)
    && (!c.running ==> NothingLoaded(c.images) && NothingRuns(c.threads))
    && (c.running ==> c.exitCode == None && c.exitTime == 0)
  }

  /** Keys 1, 2, ..., nextKey - 1 are in use, each context knows its key, lifetimes differ and are sound. */
  ghost predicate Invariant(s: Store) {
    && 0 < s.nextKey < U64
    && (forall k :: k in s.contexts <==> 0 < k < s.nextKey)
    && (forall k :: k in s.contexts ==> s.contexts[k].uniqueProcessKey == k && Sound(s.contexts[k]))
    && UniqueIdentity(s.contexts)
  }

  /** How a lifetime may change in one step: it keeps its identity and its file history; it may stop but not
      start again; and once stopped only the descriptive fields a registration fills in can change. */
  predicate Evolves(before: ProcessContext, after: ProcessContext) {
    && after.pid == before.pid && after.createTimeTicks == before.createTimeTicks
    && after.uniqueProcessKey == before.uniqueProcessKey && after.startTime == before.startTime
    && after.files == before.files
    && (after.running ==> before.running)
    && (before.running && after.running ==> after.exitCode == before.exitCode && after.exitTime == before.exitTime)
    && (!before.running ==> Described(before, after))
  }

  predicate Described(before: ProcessContext, after: ProcessContext) {
    after == before.(parentPid := after.parentPid, processSequenceNumber := after.processSequenceNumber,
      image := after.image, commandLine := after.commandLine, userSid := after.userSid,
      integritySid := after.integritySid)
  }

  /** A field that is known stays known. */
  predicate KeepsKnown(before: ProcessContext, after: ProcessContext) {
    && (before.parentPid != 0 ==> after.parentPid != 0)
    && (before.processSequenceNumber != 0 ==> after.processSequenceNumber != 0)
    && (before.image != "" ==> after.image != "")
    && (before.commandLine != "" ==> after.commandLine != "")
    && (before.userSid != "" ==> after.userSid != "")
    && (before.integritySid != "" ==> after.integritySid != "")
  }

  /** Every existing lifetime evolves, and new ones start without any file history. */
  ghost predicate StoreEvolves(before: Contexts, after: Contexts) {
    && (forall k :: k in before ==> k in after && Evolves(before[k], after[k]) && KeepsKnown(before[k], after[k]))
    && (forall k :: k in after && k !in before ==> after[k].files == [] && after[k].running)
  }

  // ---------------------------------------------------------------------------------------------

  lemma StopIsSound(c: ProcessContext, exitCode: Option<nat>, exitTime: Option<nat>)
    requires Sound(c) && c.running
    ensures var d := StopContext(c, exitCode, exitTime); Sound(d) && Evolves(c, d) && KeepsKnown(c, d)
  {
  }

  lemma LoadIsSound(c: ProcessContext, image: LoadedImage)
    requires Sound(c) && image.loaded
    ensures var d := LoadImage(c, image); Sound(d) && Evolves(c, d) && KeepsKnown(c, d)
  {
    var d := LoadImage(c, image);
    if d != c {
      forall i, j | 0 <= i < j < |d.images| && d.images[i].loaded && d.images[j].loaded
        ensures d.images[i].baseAddress != d.images[j].baseAddress
      {
        if j == |c.images| {
          assert !(c.images[i].loaded && c.images[i].baseAddress == image.baseAddress);
        }
      }
    }
  }

  lemma UnloadIsSound(c: ProcessContext, base: nat, now: Time)
    requires Sound(c)
    ensures var d := c.(images := UnloadedImages(c.images, base, now)); Sound(d) && Evolves(c, d) && KeepsKnown(c, d)
  {
    if !c.running {
      assert UnloadedImages(c.images, base, now) == c.images;
    }
  }

  lemma StartThreadIsSound(c: ProcessContext, thread: ThreadContext)
    requires Sound(c) && thread.running
    ensures var d := StartThread(c, thread); Sound(d) && Evolves(c, d) && KeepsKnown(c, d)
  {
    var d := StartThread(c, thread);
    if d != c {
      forall i, j | 0 <= i < j < |d.threads| && d.threads[i].running && d.threads[j].running
        ensures d.threads[i].tid != d.threads[j].tid
      {
        if j == |c.threads| {
          assert !(c.threads[i].running && c.threads[i].tid == thread.tid);
        }
      }
    }
  }

  lemma EndThreadIsSound(c: ProcessContext, tid: nat)
    requires Sound(c)
    ensures var d := c.(threads := EndedThreads(c.threads, tid)); Sound(d) && Evolves(c, d) && KeepsKnown(c, d)
  {
    if !c.running {
      assert EndedThreads(c.threads, tid) == c.threads;
    }
  }

  lemma ChangeIsSound(kind: Kind, ev: ProcessEvent, c: ProcessContext)
    requires Sound(c) && ContextChange(kind, ev, c).Some?
    ensures var d := ContextChange(kind, ev, c).value; Sound(d) && Evolves(c, d) && KeepsKnown(c, d)
  {
    hide Sound;
    hide Evolves;
    hide KeepsKnown;
    match kind {
      case ImageLoad =>
        LoadIsSound(c, LoadedImage(ev.now, ev.imageName.GetOr(""), ev.imageBase.value, ev.imageSize.GetOr(0), true, 0));
      case ImageUnload => UnloadIsSound(c, ev.imageBase.value, ev.now);
      case ThreadStart => StartThreadIsSound(c, ThreadContext(ev.threadId.value, ev.startAddress.GetOr(0), true));
      case ThreadStop => EndThreadIsSound(c, ev.threadId.value);
    }
  }

  // ---------------------------------------------------------------------------------------------

  /** Committing a sound, evolved context keeps the invariant and touches nothing else. */
  lemma CommitKeeps(s: Store, k: nat, d: ProcessContext)
    requires Invariant(s) && k in s.contexts
    requires Sound(d) && Evolves(s.contexts[k], d) && KeepsKnown(s.contexts[k], d)
    ensures var s' := s.(contexts := s.contexts[k := d]);
            Invariant(s') && StoreEvolves(s.contexts, s'.contexts) && s'.contexts.Keys == s.contexts.Keys
    ensures Updated(s.contexts, k, d) == (s.contexts[k := d], true)
  {
    hide Sound;
    var after := s.contexts[k := d];
    forall i, j | i in after && j in after && after[i].pid == after[j].pid
      && after[i].createTimeTicks == after[j].createTimeTicks
      ensures i == j
    {
      assert i in s.contexts && j in s.contexts;
    }
  }

  lemma UnchangedEvolves(contexts: Contexts)
    ensures StoreEvolves(contexts, contexts)
  {
  }

  /** What a registration hands in: a running process with nothing in it yet. */
  predicate Blank(c: ProcessContext) {
    c.running && c.images == [] && c.threads == [] && c.files == [] && c.exitCode == None && c.exitTime == 0
  }

  /** While the counter has not wrapped, a new lifetime gets exactly the next number. */
  lemma DenseKey(s: Store)
    requires Invariant(s)
    ensures NextFree(s.contexts.Keys, s.nextKey) == s.nextKey
  {
    assert IsNextFree(s.contexts.Keys, s.nextKey, s.nextKey);
    NextFreeIs(s.contexts.Keys, s.nextKey, s.nextKey);
  }

  lemma HolderFound(contexts: Contexts, pid: nat, ticks: nat, k: nat)
    requires k in contexts && SameLifetime(contexts[k], pid, ticks)
    ensures HolderOf(contexts, pid, ticks).Some?
  {
  }

  lemma RegisterKeeps(s: Store, inJob: bool, c: ProcessContext)
    requires Invariant(s) && s.nextKey + 1 < U64 && Blank(c)
    ensures var (s', r) := Registered(s, inJob, c);
            && Invariant(s') && StoreEvolves(s.contexts, s'.contexts)
            && s'.nextKey <= s.nextKey + 1
            && (r.Some? ==>
                  r.value.key in s'.contexts && SameLifetime(s'.contexts[r.value.key], c.pid, c.createTimeTicks))
            && (r.Some? && r.value.inserted ==> r.value.key == s.nextKey)
  {
    if Registrable(inJob, c) {
      match HolderOf(s.contexts, c.pid, c.createTimeTicks) {
        case Some(k) =>
          MergeEvolves(s.contexts[k], c);
          CommitKeeps(s, k, Merge(s.contexts[k], c));
        case None =>
          DenseKey(s);
          forall j | j in s.contexts ensures !SameLifetime(s.contexts[j], c.pid, c.createTimeTicks) {
            if SameLifetime(s.contexts[j], c.pid, c.createTimeTicks) {
              HolderFound(s.contexts, c.pid, c.createTimeTicks, j);
            }
          }
          InsertKeeps(s, c.(uniqueProcessKey := s.nextKey));
      }
    } else {
      UnchangedEvolves(s.contexts);
    }
  }

  /** What registering context c makes of store s: the lifetime it belongs to takes over what c knows, or c becomes a
      new lifetime under the next key; no other lifetime changes. */
  ghost predicate RegistersAs(s: Store, c: ProcessContext, t: Store) {
    && (forall k :: k in s.contexts && s.contexts[k].pid == c.pid && s.contexts[k].createTimeTicks == c.createTimeTicks
          ==> && k in t.contexts && t == s.(contexts := s.contexts[k := t.contexts[k]])
              && FilledIn(s.contexts[k], c, t.contexts[k]))
    && ((forall k :: k in s.contexts ==>
           s.contexts[k].pid != c.pid || s.contexts[k].createTimeTicks != c.createTimeTicks)
          ==> t == Store(s.contexts[s.nextKey := c.(uniqueProcessKey := s.nextKey)], s.nextKey + 1))
  }

  lemma RegistrationIsExact(s: Store, inJob: bool, c: ProcessContext)
    requires Invariant(s) && s.nextKey + 1 < U64
    ensures var t := Registered(s, inJob, c).0;
            if c.pid == 0 || c.createTimeTicks == 0 || !inJob then t == s else RegistersAs(s, c, t)
  {
    DenseKey(s);
    forall k | k in s.contexts && SameLifetime(s.contexts[k], c.pid, c.createTimeTicks)
      ensures HolderOf(s.contexts, c.pid, c.createTimeTicks) == Some(k)
    {
      HolderFound(s.contexts, c.pid, c.createTimeTicks, k);
    }
  }

  /** A start or rundown event registers its context; it is refused without a process id, a creation time or the job. */
  lemma StartIsExact(s: Store, ev: ProcessEvent)
    requires Invariant(s) && s.nextKey + 1 < U64
    ensures if ev.processId.GetOr(0) == 0 || ev.createTime.GetOr(0) == 0 || !ev.inJob then AfterStart(s, ev) == s
            else RegistersAs(s, StartedContext(ev), AfterStart(s, ev))
  {
    hide Registered;
    hide RegistersAs;
    RegistrationIsExact(s, ev.inJob, StartedContext(ev));
  }

  /** The root process is registered if it lives in the job. */
  lemma RootIsExact(s: Store, ev: ProcessEvent)
    requires Invariant(s) && s.nextKey + 1 < U64
    ensures if ev.processId.GetOr(0) == 0 || ev.live.None? || ev.live.value.created == 0 || !ev.inJob
            then AfterBootstrap(s, ev) == s
            else RegistersAs(s, BootstrapContext(ev), AfterBootstrap(s, ev))
  {
    hide Registered;
    hide RegistersAs;
    RegistrationIsExact(s, ev.inJob, BootstrapContext(ev));
  }

  lemma MergeEvolves(existing: ProcessContext, c: ProcessContext)
    requires Sound(existing)
    ensures var d := Merge(existing, c); Sound(d) && Evolves(existing, d) && KeepsKnown(existing, d)
  {
  }

  lemma InsertKeeps(s: Store, c: ProcessContext)
    requires Invariant(s) && s.nextKey + 1 < U64
    requires Blank(c) && c.pid != 0 && c.createTimeTicks != 0 && c.uniqueProcessKey == s.nextKey
    requires forall j :: j in s.contexts ==> !SameLifetime(s.contexts[j], c.pid, c.createTimeTicks)
    ensures var s' := Store(s.contexts[s.nextKey := c], s.nextKey + 1);
            Invariant(s') && StoreEvolves(s.contexts, s'.contexts)
  {
    assert Sound(c);
    hide Sound;
    UnchangedEvolves(s.contexts);
    InsertIsUnique(s.contexts, s.nextKey, c);
    hide UniqueIdentity;
    hide SameLifetime;
    hide Evolves;
    hide KeepsKnown;
  }

  lemma InsertIsUnique(contexts: Contexts, key: nat, c: ProcessContext)
    requires UniqueIdentity(contexts) && key !in contexts
    requires forall j :: j in contexts ==> !SameLifetime(contexts[j], c.pid, c.createTimeTicks)
    ensures UniqueIdentity(contexts[key := c])
  {
    var after := contexts[key := c];
    forall j, k | j in after && k in after && after[j].pid == after[k].pid
      && after[j].createTimeTicks == after[k].createTimeTicks
      ensures j == k
    {
      if j != key && k == key {
        assert SameLifetime(contexts[j], c.pid, c.createTimeTicks);
      } else if j == key && k != key {
        assert SameLifetime(contexts[k], c.pid, c.createTimeTicks);
      }
    }
  }

  lemma EnrichedIsBlank(c: ProcessContext, live: Option<Live>)
    requires Blank(c)
    ensures Blank(Enriched(c, live)) && Enriched(c, live).pid == c.pid
  {
  }

  lemma FoundKeyMatches(contexts: Contexts, pid: nat, ticks: nat)
    requires FindKey(contexts, pid, ticks).Some?
    ensures IsNewest(contexts, pid, ticks, FindKey(contexts, pid, ticks).value)
  {
  }

  lemma ResolveKeeps(s: Store, ev: ProcessEvent)
    requires Invariant(s) && s.nextKey + 1 < U64
    ensures var (s', key) := Resolved(s, ev);
            && Invariant(s') && StoreEvolves(s.contexts, s'.contexts) && s'.nextKey <= s.nextKey + 1
            && (key.Some? ==> key.value in s'.contexts && s'.contexts[key.value].pid == ev.processId.value)
  {
    UnchangedEvolves(s.contexts);
    if ev.processId.Some? && ev.inJob {
      if FindKey(s.contexts, ev.processId.value, 0).Some? {
        FoundKeyMatches(s.contexts, ev.processId.value, 0);
      } else {
        var c := NEW_CONTEXT.(pid := ev.processId.value);
        EnrichedIsBlank(c, ev.live);
        RegisterKeeps(s, ev.inJob, Enriched(c, ev.live));
      }
    }
  }

  /** k is the newest lifetime of a process id. */
  ghost predicate NewestOf(contexts: Contexts, pid: nat, k: nat) {
    && k in contexts && contexts[k].pid == pid
    && forall j :: j in contexts && contexts[j].pid == pid ==>
         contexts[j].createTimeTicks <= contexts[k].createTimeTicks
  }

  /** A process in the job without any lifetime, but alive: it gets one on the spot. */
  ghost predicate IsUnannounced(s: Store, ev: ProcessEvent) {
    && ev.processId.GetOr(0) != 0 && ev.inJob && ev.live.Some? && ev.live.value.created != 0
    && forall j :: j in s.contexts ==> s.contexts[j].pid != ev.processId.value
  }

  /** An event of a process in the job is resolved to the newest lifetime of its process id; without one, to a new
      lifetime under the next key, which knows what the live process tells and nothing else. */
  lemma ResolvesTo(s: Store, ev: ProcessEvent, k: nat)
    requires Invariant(s) && s.nextKey + 1 < U64
    ensures Resolved(s, ev).1 == Some(k) <==>
              || (ev.processId.Some? && ev.inJob && NewestOf(s.contexts, ev.processId.value, k))
              || (IsUnannounced(s, ev) && k == s.nextKey)
    ensures Resolved(s, ev).0 ==
            if IsUnannounced(s, ev) then
              var live := ev.live.value;
              Store(
                s.contexts[s.nextKey := ProcessContext(
                  ev.processId.value, 0, s.nextKey, live.image.GetOr(""), "", live.userSid.GetOr(""),
                  FromFileTime(live.created), live.created, 0, "", true, None, 0, [], [], [])],
                s.nextKey + 1)
            else s
  {
    if ev.processId.Some? && ev.inJob {
      var pid := ev.processId.value;
      if FindKey(s.contexts, pid, 0).Some? {
        FoundKeyMatches(s.contexts, pid, 0);
      }
      if NewestOf(s.contexts, pid, k) {
        FindKeyIs(s.contexts, pid, 0, k);
      }
      if j :| j in s.contexts && s.contexts[j].pid == pid {
        NewestExists(s.contexts, pid, 0, j);
      }
      DenseKey(s);
    }
  }

  /** An image or thread event changes that lifetime as described, and nothing else. */
  lemma DetailIsExact(s: Store, kind: Kind, ev: ProcessEvent)
    requires Invariant(s) && s.nextKey + 1 < U64
    requires kind.ImageLoad? || kind.ImageUnload? || kind.ThreadStart? || kind.ThreadStop?
    ensures var (resolved, key) := Resolved(s, ev);
            var after := AfterDetail(s, kind, ev);
            match key
            case None => after == resolved
            case Some(k) =>
              && k in resolved.contexts && k in after.contexts
              && after == resolved.(contexts := resolved.contexts[k := after.contexts[k]])
              && Changes(kind, ev, resolved.contexts[k], after.contexts[k])
  {
    hide Resolved;
    hide ContextChange;
    hide Changes;
    hide Evolves;
    hide KeepsKnown;
    hide Sound;
    hide StoreEvolves;
    hide Invariant;
    ResolveKeeps(s, ev);
    var (resolved, key) := Resolved(s, ev);
    if key.Some? {
      var c := resolved.contexts[key.value];
      ChangeIsExact(kind, ev, c);
      var change := ContextChange(kind, ev, c);
      if change.Some? {
        ResolvedIsSound(s, ev);
        ChangeIsSound(kind, ev, c);
        CommitKeeps(resolved, key.value, change.value);
      } else {
        assert resolved.contexts[key.value := c] == resolved.contexts;
      }
    }
  }

  lemma ResolvedIsSound(s: Store, ev: ProcessEvent)
    requires Invariant(s) && s.nextKey + 1 < U64 && Resolved(s, ev).1.Some?
    ensures Resolved(s, ev).1.value in Resolved(s, ev).0.contexts
    ensures Sound(Resolved(s, ev).0.contexts[Resolved(s, ev).1.value])
  {
    ResolveKeeps(s, ev);
    hide Resolved;
    hide Sound;
  }

  lemma EvolveOnce(a: ProcessContext, b: ProcessContext, c: ProcessContext)
    requires Evolves(a, b) && Evolves(b, c) && KeepsKnown(a, b) && KeepsKnown(b, c)
    ensures Evolves(a, c) && KeepsKnown(a, c)
  {
  }

  lemma EvolveFurther(a: Contexts, b: Contexts, k: nat, d: ProcessContext)
    requires StoreEvolves(a, b) && k in b && Evolves(b[k], d) && KeepsKnown(b[k], d) && d.running == b[k].running
    ensures StoreEvolves(a, b[k := d])
  {
    if k in a {
      EvolveOnce(a[k], b[k], d);
    } else {
      assert d.files == b[k].files;
    }
    hide Evolves;
    hide KeepsKnown;
  }

  /** Every handler keeps the invariant, and every lifetime in the store only evolves. */
  lemma StepKeeps(s: Store, kind: Kind, ev: ProcessEvent)
    requires Invariant(s) && s.nextKey + 1 < U64
    ensures Invariant(Step(s, kind, ev)) && Step(s, kind, ev).nextKey <= s.nextKey + 1
    ensures StoreEvolves(s.contexts, Step(s, kind, ev).contexts)
  {
    UnchangedEvolves(s.contexts);
    match kind {
      case Start | Rundown =>
        StartedIsBlank(ev);
        RegisterKeeps(s, ev.inJob, StartedContext(ev));
      case Bootstrap =>
        StartedIsBlank(ev);
        RegisterKeeps(s, ev.inJob, BootstrapContext(ev));
      case Stop => StopKeeps(s, ev);
      case ThreadStart | ThreadStop | ImageLoad | ImageUnload => DetailKeeps(s, kind, ev);
      case Ignored =>
    }
  }

  lemma StartedIsBlank(ev: ProcessEvent)
    ensures Blank(StartedContext(ev)) && Blank(BootstrapContext(ev))
  {
  }

  lemma StopKeeps(s: Store, ev: ProcessEvent)
    requires Invariant(s)
    ensures Invariant(AfterStop(s, ev)) && StoreEvolves(s.contexts, AfterStop(s, ev).contexts)
    ensures AfterStop(s, ev).nextKey == s.nextKey
  {
    UnchangedEvolves(s.contexts);
    if ev.processId.Some? && ev.createTime.GetOr(0) != 0 {
      var found := FindKey(s.contexts, ev.processId.value, ev.createTime.value);
      if found.Some? && found.value in s.contexts && s.contexts[found.value].running {
        StopIsSound(s.contexts[found.value], ev.exitCode, ev.exitTime);
        CommitKeeps(s, found.value, StopContext(s.contexts[found.value], ev.exitCode, ev.exitTime));
      }
    }
  }

  lemma DetailKeeps(s: Store, kind: Kind, ev: ProcessEvent)
    requires Invariant(s) && s.nextKey + 1 < U64
    ensures Invariant(AfterDetail(s, kind, ev)) && AfterDetail(s, kind, ev).nextKey <= s.nextKey + 1
    ensures StoreEvolves(s.contexts, AfterDetail(s, kind, ev).contexts)
  {
    hide Resolved;
    hide ContextChange;
    hide Evolves;
    hide KeepsKnown;
    hide Sound;
    hide StoreEvolves;
    hide Invariant;
    ResolveKeeps(s, ev);
    var (s', key) := Resolved(s, ev);
    if key.Some? {
      var c := s'.contexts[key.value];
      var change := ContextChange(kind, ev, c);
      if change.Some? {
        ChangeIsSound(kind, ev, c);
        CommitKeeps(s', key.value, change.value);
        DetailKeepsRunning(kind, ev, c);
        EvolveFurther(s.contexts, s'.contexts, key.value, change.value);
      }
    }
  }

  lemma DetailKeepsRunning(kind: Kind, ev: ProcessEvent, c: ProcessContext)
    requires ContextChange(kind, ev, c).Some?
    ensures ContextChange(kind, ev, c).value.running == c.running
  {
  }
}
