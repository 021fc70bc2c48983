/** The process lifetime store: identities, key allocation, lookups and updates. */
module ProcessStore {
  import opened Prelude

  /** 100-nanosecond ticks since 1970. */
  type Time = int

  datatype LoadedImage = LoadedImage(
    timestamp: Time, path: string, baseAddress: nat, size: nat, loaded: bool, unloadTime: Time)

  datatype ThreadContext = ThreadContext(tid: nat, startAddress: nat, running: bool)

  datatype FileEvent = FileEvent(
    timestamp: Time, path: string, operation: string, eventId: nat, byteOffset: Option<nat>, ioSize: Option<nat>)

  datatype ProcessContext = ProcessContext(
    pid: nat, parentPid: nat, uniqueProcessKey: nat,
    image: string, commandLine: string, userSid: string, startTime: Time,
    createTimeTicks: nat, processSequenceNumber: nat, integritySid: string,
    running: bool, exitCode: Option<nat>, exitTime: Time,
    images: seq<LoadedImage>, threads: seq<ThreadContext>, files: seq<FileEvent>)

  /** A default-constructed context. */
  const NEW_CONTEXT := ProcessContext(0, 0, 0, "", "", "", 0, 0, 0, "", true, None, 0, [], [], [])

  datatype Registration = Registration(key: nat, inserted: bool)

  type Contexts = map<nat, ProcessContext>

  datatype Store = Store(contexts: Contexts, nextKey: nat) {
    /** Keys are nonzero 64-bit numbers and agree with the contexts they lead to. */
    ghost predicate Valid() {
      && nextKey < U64
      && forall k :: k in contexts ==> 0 < k < U64 && contexts[k].uniqueProcessKey == k
    }
  }

  /** No two entries describe the same lifetime. */
  ghost predicate UniqueIdentity(contexts: Contexts) {
    forall j, k | j in contexts && k in contexts ::
      contexts[j].pid == contexts[k].pid && contexts[j].createTimeTicks == contexts[k].createTimeTicks ==> j == k
  }

  // ---------------------------------------------------------------------------------------------
  // Fresh keys.

  /** How many increments lead from one 64-bit number to another. */
  function Distance(from: nat, to: nat): nat
    requires from < U64 && to < U64
  {
    if to >= from then to - from else to + U64 - from
  }

  /** Incrementing a 64-bit number. */
  function Increment(n: nat): (next: nat)
    requires n < U64
    ensures next == if n + 1 == U64 then 0 else n + 1
  {
    ModUnique(n + 1, U64, if n + 1 == U64 then 1 else 0, if n + 1 == U64 then 0 else n + 1);
    (n + 1) % U64
  }

  /** `key` is the first nonzero unused number at or after `from`, going around. */
  ghost predicate IsNextFree(keys: set<nat>, from: nat, key: nat)
    requires from < U64
  {
    && 0 < key < U64 && key !in keys
    && forall k :: 0 < k < U64 && Distance(from, k) < Distance(from, key) ==> k in keys
  }

  lemma NextFreeIsUnique(keys: set<nat>, from: nat, a: nat, b: nat)
    requires from < U64 && IsNextFree(keys, from, a) && IsNextFree(keys, from, b)
    ensures a == b
  {
  }

  ghost function NextFree(keys: set<nat>, from: nat): (key: nat)
    requires from < U64
    ensures key < U64
  {
    if k: nat :| IsNextFree(keys, from, k) then k else 0
  }

  lemma NextFreeIs(keys: set<nat>, from: nat, key: nat)
    requires from < U64 && IsNextFree(keys, from, key)
    ensures NextFree(keys, from) == key
  {
    assert exists k: nat :: IsNextFree(keys, from, k);
    var chosen := NextFree(keys, from);
    assert IsNextFree(keys, from, chosen);
    NextFreeIsUnique(keys, from, key, chosen);
  }

  lemma {:induction false} UpTo(n: nat) returns (s: set<nat>)
    ensures |s| == n && forall k :: k in s <==> 0 < k <= n
  {
    if n == 0 {
      s := {};
    } else {
      var front := UpTo(n - 1);
      s := front + {n};
    }
  }

  lemma SubsetSize(a: set<nat>, b: set<nat>)
    requires a <= b
    ensures |a| <= |b|
  {
    assert b == a + (b - a);
  }

  /** Fewer than 2^64 - 1 used keys leave a free one. */
  lemma FreeKeyExists(keys: set<nat>) returns (free: nat)
    requires |keys| < U64 - 1
    ensures 0 < free < U64 && free !in keys
  {
    var all := UpTo(U64 - 1);
    if all <= keys {
      SubsetSize(all, keys);
    }
    free :| free in all && free !in keys;
  }

  // ---------------------------------------------------------------------------------------------
  // What the operations compute.

  predicate SameLifetime(c: ProcessContext, pid: nat, ticks: nat) {
    c.pid == pid && c.createTimeTicks == ticks
  }

  /** A repeated registration fills in what it knows and leaves the rest. */
  function Merge(existing: ProcessContext, c: ProcessContext): ProcessContext {
    existing.(
      parentPid := if c.parentPid != 0 then c.parentPid else existing.parentPid,
      processSequenceNumber := if c.processSequenceNumber != 0 then c.processSequenceNumber
        else existing.processSequenceNumber,
      image := if c.image != "" then c.image else existing.image,
      commandLine := if c.commandLine != "" then c.commandLine else existing.commandLine,
      userSid := if c.userSid != "" then c.userSid else existing.userSid,
      integritySid := if c.integritySid != "" then c.integritySid else existing.integritySid)
  }

  /** Of the six descriptive fields, those the registration knows are taken over; nothing else changes. */
  predicate FilledIn(before: ProcessContext, c: ProcessContext, after: ProcessContext) {
    && after.parentPid == (if c.parentPid == 0 then before.parentPid else c.parentPid)
    && after.processSequenceNumber ==
         (if c.processSequenceNumber == 0 then before.processSequenceNumber else c.processSequenceNumber)
    && after.image == (if c.image == "" then before.image else c.image)
    && after.commandLine == (if c.commandLine == "" then before.commandLine else c.commandLine)
    && after.userSid == (if c.userSid == "" then before.userSid else c.userSid)
    && after.integritySid == (if c.integritySid == "" then before.integritySid else c.integritySid)
    && after == before.(parentPid := after.parentPid, processSequenceNumber := after.processSequenceNumber,
         image := after.image, commandLine := after.commandLine, userSid := after.userSid,
         integritySid := after.integritySid)
  }

  ghost function HolderOf(contexts: Contexts, pid: nat, ticks: nat): Option<nat> {
    if k :| k in contexts && SameLifetime(contexts[k], pid, ticks) then Some(k) else None
  }

  predicate Registrable(inJob: bool, c: ProcessContext) {
    c.pid != 0 && c.createTimeTicks != 0 && inJob
  }

  ghost function Registered(s: Store, inJob: bool, c: ProcessContext): (r: (Store, Option<Registration>))
    requires s.nextKey < U64
    ensures r.0.nextKey < U64
  {
    if !Registrable(inJob, c) then (s, None)
    else match HolderOf(s.contexts, c.pid, c.createTimeTicks)
      case Some(k) => (s.(contexts := s.contexts[k := Merge(s.contexts[k], c)]), Some(Registration(k, false)))
      case None =>
        var key := NextFree(s.contexts.Keys, s.nextKey);
        (Store(s.contexts[key := c.(uniqueProcessKey := key)], Increment(key)), Some(Registration(key, true)))
  }

  /** ticks == 0 asks for any lifetime of the process id. */
  predicate Matches(c: ProcessContext, pid: nat, ticks: nat) {
    c.pid == pid && (ticks == 0 || c.createTimeTicks == ticks)
  }

  ghost predicate IsNewest(contexts: Contexts, pid: nat, ticks: nat, k: nat) {
    && k in contexts && Matches(contexts[k], pid, ticks)
    && forall j :: j in contexts && Matches(contexts[j], pid, ticks) ==>
      contexts[j].createTimeTicks <= contexts[k].createTimeTicks
  }

  ghost function FindKey(contexts: Contexts, pid: nat, ticks: nat): Option<nat> {
    if k :| IsNewest(contexts, pid, ticks, k) then Some(k) else None
  }

  lemma NewestIsUnique(contexts: Contexts, pid: nat, ticks: nat, a: nat, b: nat)
    requires UniqueIdentity(contexts) && IsNewest(contexts, pid, ticks, a) && IsNewest(contexts, pid, ticks, b)
    ensures a == b
  {
  }

  lemma FindKeyIs(contexts: Contexts, pid: nat, ticks: nat, k: nat)
    requires UniqueIdentity(contexts) && IsNewest(contexts, pid, ticks, k)
    ensures FindKey(contexts, pid, ticks) == Some(k)
  {
    assert exists j :: IsNewest(contexts, pid, ticks, j);
    var chosen := FindKey(contexts, pid, ticks).value;
    assert IsNewest(contexts, pid, ticks, chosen);
    NewestIsUnique(contexts, pid, ticks, k, chosen);
  }

  ghost function LaterThan(contexts: Contexts, pid: nat, ticks: nat, k: nat): set<nat>
    requires k in contexts
  {
    set j | j in contexts && Matches(contexts[j], pid, ticks)
      && contexts[j].createTimeTicks > contexts[k].createTimeTicks
  }

  /** A match implies a newest match. */
  lemma {:induction false} NewestExists(contexts: Contexts, pid: nat, ticks: nat, k: nat)
    requires k in contexts && Matches(contexts[k], pid, ticks)
    ensures FindKey(contexts, pid, ticks).Some?
    decreases |LaterThan(contexts, pid, ticks, k)|
  {
    if !IsNewest(contexts, pid, ticks, k) {
      var j :| j in contexts && Matches(contexts[j], pid, ticks)
        && contexts[j].createTimeTicks > contexts[k].createTimeTicks;
      var later := LaterThan(contexts, pid, ticks, k);
      assert j in later && LaterThan(contexts, pid, ticks, j) <= later - {j};
      SubsetSize(LaterThan(contexts, pid, ticks, j), later - {j});
      NewestExists(contexts, pid, ticks, j);
    }
  }

  function Updated(contexts: Contexts, key: nat, updated: ProcessContext): (Contexts, bool) {
    if key !in contexts || updated.pid != contexts[key].pid || updated.uniqueProcessKey != key then (contexts, false)
    else (contexts[key := updated], true)
  }

  // ---------------------------------------------------------------------------------------------
  // The store object.

  class ProcessContextStore {
    var contexts: Contexts
    var nextKey: nat

    ghost function State(): Store
      reads this
    {
      Store(contexts, nextKey)
    }

    constructor ()
      ensures State() == Store(map[], 1) && State().Valid()
    {
      contexts := map[];
      nextKey := 1;
    }

    /** The skip loop: with a free key left it ends, at the first free one. */
    method AllocateKey() returns (key: nat)
      requires nextKey < U64 && |contexts| < U64 - 1
      modifies this`nextKey
      ensures IsNextFree(contexts.Keys, old(nextKey), key)
      ensures key == NextFree(contexts.Keys, old(nextKey))
      ensures nextKey == Increment(key)
    {
      ghost var free := FreeKeyExists(contexts.Keys);
      ghost var start := nextKey;
      while nextKey == 0 || nextKey in contexts
        invariant nextKey < U64
        invariant Distance(start, nextKey) <= Distance(start, free)
        invariant forall k :: 0 < k < U64 && Distance(start, k) < Distance(start, nextKey) ==> k in contexts
        decreases Distance(nextKey, free)
      {
        nextKey := Increment(nextKey);
      }
      key := nextKey;
      assert IsNextFree(contexts.Keys, start, key);
      NextFreeIs(contexts.Keys, start, key);
      nextKey := Increment(nextKey);
    }

    /** Whatever order the entries are visited in: a known lifetime is filled in, a new one gets a fresh key. */
    method Register(inJob: bool, context: ProcessContext) returns (r: Option<Registration>)
      requires State().Valid() && |contexts| < U64 - 1
      modifies this
      ensures State().Valid()
      ensures r.None? <==> context.pid == 0 || context.createTimeTicks == 0 || !inJob
      ensures r.None? ==> State() == old(State())
      ensures r.Some? && !r.value.inserted ==>
                && var k := r.value.key;
                && k in old(contexts) && old(contexts)[k].pid == context.pid
                && old(contexts)[k].createTimeTicks == context.createTimeTicks
                && k in contexts && contexts == old(contexts)[k := contexts[k]]
                && FilledIn(old(contexts)[k], context, contexts[k])
                && nextKey == old(nextKey)
      ensures r.Some? && r.value.inserted ==>
                && HolderOf(old(contexts), context.pid, context.createTimeTicks).None?
                && (forall k :: k in old(contexts) && old(contexts)[k].pid == context.pid ==>
                      old(contexts)[k].createTimeTicks != context.createTimeTicks)
                && r.value.key !in old(contexts)
                && IsNextFree(old(contexts).Keys, old(nextKey), r.value.key) && nextKey == Increment(r.value.key)
                && contexts == old(contexts)[r.value.key := context.(uniqueProcessKey := r.value.key)]
                && (State(), r) == Registered(old(State()), inJob, context)
      ensures UniqueIdentity(old(contexts)) ==> (State(), r) == Registered(old(State()), inJob, context)
    {
      if context.pid == 0 || context.createTimeTicks == 0 || !inJob {
        return None;
      }
      var rest := contexts.Keys;
      while rest != {}
        invariant rest <= contexts.Keys
        invariant forall k :: k in contexts && k !in rest ==>
            !SameLifetime(contexts[k], context.pid, context.createTimeTicks)
        decreases rest
      {
        var k :| k in rest;
        if SameLifetime(contexts[k], context.pid, context.createTimeTicks) {
          contexts := contexts[k := Merge(contexts[k], context)];
          return Some(Registration(k, false));
        }
        rest := rest - {k};
      }
      var key := AllocateKey();
      contexts := contexts[key := context.(uniqueProcessKey := key)];
      return Some(Registration(key, true));
    }

    /** The exact or newest lifetime of a process id, whatever order the entries are visited in. */
    method FindProcessKey(pid: nat, ticks: nat) returns (key: Option<nat>)
      requires State().Valid()
      ensures key.Some? ==> IsNewest(contexts, pid, ticks, key.value)
      ensures key.Some? ==>
                && key.value in contexts && contexts[key.value].pid == pid
                && (ticks != 0 ==> contexts[key.value].createTimeTicks == ticks)
                && forall k :: k in contexts && contexts[k].pid == pid ==>
                     (ticks != 0 && contexts[k].createTimeTicks != ticks)
                     || contexts[k].createTimeTicks <= contexts[key.value].createTimeTicks
      ensures key.None? <==>
                forall k :: k in contexts ==>
                  contexts[k].pid != pid || (ticks != 0 && contexts[k].createTimeTicks != ticks)
      ensures UniqueIdentity(contexts) ==> key == FindKey(contexts, pid, ticks)
    {
      var newest: Option<nat> := None;
      var rest := contexts.Keys;
      while rest != {}
        invariant rest <= contexts.Keys
        invariant newest.Some? ==> newest.value in contexts && Matches(contexts[newest.value], pid, ticks)
        invariant forall j :: j in contexts && j !in rest && Matches(contexts[j], pid, ticks) ==>
                    newest.Some? && contexts[j].createTimeTicks <= contexts[newest.value].createTimeTicks
        decreases rest
      {
        var k :| k in rest;
        var c := contexts[k];
        if c.pid == pid && (ticks == 0 || c.createTimeTicks == ticks) {
          if newest == None || c.createTimeTicks > contexts[newest.value].createTimeTicks {
            newest := Some(k);
          }
        }
        rest := rest - {k};
      }
      if newest == None {
        return None;
      }
      assert IsNewest(contexts, pid, ticks, newest.value);
      if UniqueIdentity(contexts) {
        FindKeyIs(contexts, pid, ticks, newest.value);
      }
      return Some(contexts[newest.value].uniqueProcessKey);
    }

    /** Add keeps the caller's key, never overwrites, and does not look for the lifetime under another key. */
    method Add(inJob: bool, context: ProcessContext) returns (added: bool)
      requires State().Valid() && context.uniqueProcessKey < U64
      modifies this
      ensures State().Valid() && nextKey == old(nextKey)
      ensures added <==>
                && context.pid != 0 && context.uniqueProcessKey != 0 && inJob
                && context.uniqueProcessKey !in old(contexts)
      ensures contexts == if added then old(contexts)[context.uniqueProcessKey := context] else old(contexts)
    {
      if context.pid == 0 || context.uniqueProcessKey == 0 || !inJob {
        return false;
      }
      if context.uniqueProcessKey in contexts {
        return false;
      }
      contexts := contexts[context.uniqueProcessKey := context];
      return true;
    }

    method Find(key: nat) returns (context: Option<ProcessContext>)
      ensures context == if key in contexts then Some(contexts[key]) else None
    {
      return if key in contexts then Some(contexts[key]) else None;
    }

    /** Lets a callback work on a copy of the entry and commits it, unless it touched the process id or the key.
        A null callback is refused. */
    method Update(key: nat, update: Option<ProcessContext -> ProcessContext>) returns (ok: bool)
      requires State().Valid()
      modifies this`contexts
      ensures State().Valid()
      ensures (contexts, ok) == if key !in old(contexts) || update.None? then (old(contexts), false)
                                else Updated(old(contexts), key, update.value(old(contexts)[key]))
      ensures ok <==> key in old(contexts) && update.Some?
                      && var updated := update.value(old(contexts)[key]);
                         updated.pid == old(contexts)[key].pid && updated.uniqueProcessKey == key
      ensures contexts == if ok then old(contexts)[key := update.value(old(contexts)[key])] else old(contexts)
    {
      if key !in contexts || update.None? {
        return false;
      }
      var updated := update.value(contexts[key]);
      if updated.pid != contexts[key].pid || updated.uniqueProcessKey != key {
        return false;
      }
      contexts := contexts[key := updated];
      return true;
    }

    method Remove(key: nat) returns (removed: bool)
      requires State().Valid()
      modifies this`contexts
      ensures State().Valid()
      ensures removed <==> key in old(contexts)
      ensures contexts == old(contexts) - {key}
    {
      removed := key in contexts;
      contexts := contexts - {key};
    }
  }

  // ---------------------------------------------------------------------------------------------
  // Any sequence of calls.

  datatype Call =
    | Registering(inJob: bool, context: ProcessContext)
    | Adding(inJob: bool, context: ProcessContext)
    | Updating(key: nat, update: Option<ProcessContext -> ProcessContext>)
    | Removing(key: nat)

  /** Each key issued is the first free one behind the key issued before it, going around. */
  ghost predicate IssuedInTurn(issued: seq<nat>, used: seq<set<nat>>) {
    && |issued| == |used|
    && (forall i :: 0 <= i < |issued| ==> 0 < issued[i] < U64 && issued[i] !in used[i])
    && (forall i :: 0 < i < |issued| ==> IsNextFree(used[i], Increment(issued[i - 1]), issued[i]))
  }

  /** One call; the key it issued, if any. */
  method Perform(store: ProcessContextStore, call: Call) returns (key: Option<nat>)
    requires store.State().Valid() && |store.contexts| < U64 - 1
    requires call.Adding? ==> call.context.uniqueProcessKey < U64
    modifies store
    ensures store.State().Valid() && |store.contexts| <= |old(store.contexts)| + 1
    ensures key.Some? ==> IsNextFree(old(store.contexts.Keys), old(store.nextKey), key.value)
    ensures store.nextKey == if key.Some? then Increment(key.value) else old(store.nextKey)
  {
    hide IsNextFree;
    hide Registered;
    hide Updated;
    key := None;
    match call {
      case Registering(inJob, context) =>
        var r := store.Register(inJob, context);
        if r.Some? && r.value.inserted {
          key := Some(r.value.key);
        }
      case Adding(inJob, context) => var _ := store.Add(inJob, context);
      case Updating(k, update) =>
        var _ := store.Update(k, update);
        UpdatedSize(old(store.contexts), k, update);
      case Removing(k) =>
        var _ := store.Remove(k);
        SubsetSize(store.contexts.Keys, old(store.contexts).Keys);
    }
  }

  lemma UpdatedSize(contexts: Contexts, key: nat, update: Option<ProcessContext -> ProcessContext>)
    ensures key in contexts && update.Some? ==> |Updated(contexts, key, update.value(contexts[key])).0| == |contexts|
  {
    if key in contexts && update.Some? {
      assert Updated(contexts, key, update.value(contexts[key])).0.Keys == contexts.Keys;
    }
  }

  /** The keys a store issues over any sequence of calls, and for each the keys in use at that moment. */
  method Operate(store: ProcessContextStore, calls: seq<Call>) returns (issued: seq<nat>, ghost used: seq<set<nat>>)
    requires store.State().Valid() && |store.contexts| + |calls| < U64 - 1
    requires forall n :: 0 <= n < |calls| && calls[n].Adding? ==> calls[n].context.uniqueProcessKey < U64
    modifies store
    ensures store.State().Valid()
    ensures IssuedInTurn(issued, used)
    ensures issued != [] ==> IsNextFree(used[0], old(store.nextKey), issued[0])
  {
    issued, used := [], [];
    for n := 0 to |calls|
      invariant store.State().Valid() && |store.contexts| + |calls| - n < U64 - 1
      invariant IssuedInTurn(issued, used)
      invariant store.nextKey == if issued == [] then old(store.nextKey) else Increment(issued[|issued| - 1])
      invariant issued != [] ==> IsNextFree(used[0], old(store.nextKey), issued[0])
    {
      ghost var keys := store.contexts.Keys;
      var key := Perform(store, calls[n]);
      if key.Some? {
        assert 0 < key.value < U64 && key.value !in keys;
        hide IsNextFree;
        issued, used := issued + [key.value], used + [keys];
      }
    }
  }

  ghost predicate ExhaustedAbove(keys: set<nat>, key: nat) {
    forall k: nat :: key < k && k < U64 ==> k in keys
  }

  /** A key is smaller than the one issued before it only if every larger key was in use. */
  lemma KeysIncreaseUntilExhausted(issued: seq<nat>, used: seq<set<nat>>, i: nat)
    requires IssuedInTurn(issued, used) && i + 1 < |issued|
    ensures issued[i] < issued[i + 1] || ExhaustedAbove(used[i + 1], issued[i])
  {
    var from := Increment(issued[i]);
    if issued[i + 1] <= issued[i] {
      assert IsNextFree(used[i + 1], from, issued[i + 1]);
      var keys, next := used[i + 1], issued[i + 1];
      forall k: nat | issued[i] < k && k < U64 ensures k in keys {
        assert Distance(from, k) < Distance(from, next);
      }
    }
  }

  /** So until then keys strictly increase. */
  lemma {:induction false} KeysIncreaseOverall(issued: seq<nat>, used: seq<set<nat>>, i: nat, j: nat)
    requires IssuedInTurn(issued, used) && i < j < |issued|
    requires forall n :: i <= n < j ==> !ExhaustedAbove(used[n + 1], issued[n])
    ensures issued[i] < issued[j]
    decreases j
  {
    hide IssuedInTurn;
    hide ExhaustedAbove;
    KeysIncreaseUntilExhausted(issued, used, j - 1);
    if i < j - 1 {
      KeysIncreaseOverall(issued, used, i, j - 1);
    }
  }
}
