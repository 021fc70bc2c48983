/** The sandbox lifecycle: who is accountable for every lease, endpoint, container, snapshot and task. */
module SandboxRunner {
  import opened Prelude

  /** A container and its snapshot carry the same number. */
  datatype Resource = Lease(id: nat) | Endpoint(id: nat) | Container(id: nat) | Snapshot(id: nat) | Task(id: nat)

  /** How one call to containerd or HCN ends. A call that fails late reports an error too, but has taken effect in
      full by then; of a container's creation or deletion, one that fails halfway has done the snapshot half. */
  datatype Outcome = Succeeds | Fails | FailsHalfway | FailsLate

  datatype Deletion = Deleted | NotFound | Refused

  /** The state of containerd and HCN: what is live, what a delete call failed for, what a creation call made
      that reported an error, what disappeared on its own, how many calls there were, and the next unused number. */
  datatype World = World(
    live: set<Resource>, failed: set<Resource>, leaked: set<Resource>, vanished: set<Resource>,
    clock: nat, nextId: nat)
  {
    /** What no one but the failing call can be blamed for. */
    function Excused(): set<Resource> {
      failed + leaked
    }

    predicate SameFaults(earlier: World) {
      failed == earlier.failed && leaked == earlier.leaked
    }
  }

  const EMPTY_WORLD := World({}, {}, {}, {}, 0, 0)

  ghost predicate Sane(w: World) {
    && (forall r :: r in w.live ==> r.id < w.nextId)
    && (forall r :: r in w.vanished ==> r.id < w.nextId)
    && w.live * w.vanished == {}
  }

  /** containerd and HCN. Every call ends as `script` says for its tick, and before it whatever `gone` lists for
      that tick has disappeared behind the runner's back. */
  class Host {
    const script: nat -> Outcome
    const gone: nat -> set<Resource>
    var world: World

    ghost predicate Valid()
      reads this
    {
      Sane(world)
    }

    predicate Answered(tick: nat) {
      script(tick) == Succeeds
    }

    ghost predicate AllAnswered(tick: nat, n: nat) {
      forall t :: tick <= t < tick + n ==> Answered(t)
    }

    /** The call to delete a container with its snapshot is answered, or it fails and the two calls of the recovery
        path, for the snapshot and for the container alone, are. */
    predicate PairAnswered(tick: nat) {
      Answered(tick) || (Answered(tick + 1) && Answered(tick + 2))
    }

    /** What an answered call was for is gone: the container at the first attempt, or container and snapshot each by
        its own call. */
    predicate PairGone(tick: nat, live: set<Resource>, key: nat) {
      && (Answered(tick) ==> Container(key) !in live)
      && (!Answered(tick) && Answered(tick + 1) ==> Snapshot(key) !in live)
      && (!Answered(tick) && Answered(tick + 2) ==> Container(key) !in live)
    }

    function PairCalls(tick: nat): nat {
      if Answered(tick) then 1 else 3
    }

    ghost predicate EverAnswered(from: nat) {
      forall t :: t >= from ==> Answered(t)
    }

    /** Nothing disappears on its own from one tick up to another. */
    ghost predicate Quiet(from: nat, to: nat) {
      forall t :: from <= t < to ==> gone(t) == {}
    }

    /** From a to b only `made` can have come to life, only `deleted` can have been deleted, failures and
        disappearances stay on record, and what disappeared did so at a tick that says so. */
    ghost predicate Passes(a: World, b: World, made: set<Resource>, deleted: set<Resource>) {
      && Sane(b)
      && a.failed <= b.failed && a.leaked <= b.leaked && a.vanished <= b.vanished && a.clock <= b.clock
        && a.nextId <= b.nextId
      && b.live <= a.live + made
      && (forall r :: r in a.live ==> r in b.live || r in deleted || r in b.vanished)
      && (forall r :: r in b.vanished ==> r in a.vanished || Disappears(r, a.clock, b.clock))
    }

    ghost predicate Disappears(r: Resource, from: nat, to: nat) {
      exists t :: from <= t < to && r in gone(t)
    }

    constructor (script: nat -> Outcome, gone: nat -> set<Resource>)
      ensures Valid() && this.script == script && this.gone == gone && world == EMPTY_WORLD
    {
      this.script, this.gone := script, gone;
      world := EMPTY_WORLD;
    }

    function Ticked(w: World): World {
      w.(vanished := w.vanished + w.live * gone(w.clock), live := w.live - gone(w.clock), clock := w.clock + 1)
    }

    lemma TickPasses(w: World)
      requires Sane(w)
      ensures Passes(w, Ticked(w), {}, {})
    {
      forall r | r in Ticked(w).vanished ensures r in w.vanished || Disappears(r, w.clock, w.clock + 1) {
        assert r in gone(w.clock) || r in w.vanished;
      }
    }

    method Call() returns (outcome: Outcome)
      requires Valid()
      modifies this
      ensures Valid() && Passes(old(world), world, {}, {})
      ensures world == Ticked(old(world)) && outcome == script(old(world).clock)
    {
      TickPasses(world);
      outcome := script(world.clock);
      world := Ticked(world);
    }

    /** Creating one resource; Lease, Endpoint or Task by `make`. */
    method Create(make: nat -> Resource) returns (id: Option<nat>)
      requires Valid() && forall n :: make(n).id == n
      modifies this
      ensures Valid() && Passes(old(world), world, if id.Some? then {make(id.value)} else world.leaked, {})
      ensures world.failed == old(world).failed && world.clock == old(world).clock + 1
      ensures id.Some? <==> Answered(old(world).clock)
      ensures id.Some? ==> make(id.value) in world.live && world.leaked == old(world).leaked
      ensures script(old(world).clock) == FailsLate ==>
                make(old(world).nextId) in world.live && make(old(world).nextId) in world.leaked
      ensures id.Some? ==> id.value == old(world).nextId && world.nextId == id.value + 1
    {
      var outcome := Call();
      if outcome == Fails || outcome == FailsHalfway {
        return None;
      }
      var made := {make(world.nextId)};
      id := if outcome == Succeeds then Some(world.nextId) else None;
      world := world.(live := world.live + made, nextId := world.nextId + 1,
                      leaked := if outcome == Succeeds then world.leaked else world.leaked + made);
    }

    method Delete(r: Resource) returns (d: Deletion)
      requires Valid()
      modifies this
      ensures Valid() && Passes(old(world), world, {}, {r})
      ensures world.nextId == old(world).nextId && world.clock == old(world).clock + 1
      ensures d.Refused? <==> !Answered(old(world).clock)
      ensures !d.Refused? ==> r !in world.live
      ensures world.failed == if d.Refused? then old(world).failed + {r} else old(world).failed
      ensures world.leaked == old(world).leaked
    {
      var outcome := Call();
      if outcome == Fails || outcome == FailsHalfway {
        world := world.(failed := world.failed + {r});
        return Refused;
      }
      d := if outcome == FailsLate then Refused else if r in world.live then Deleted else NotFound;
      world := world.(live := world.live - {r}, failed := if d == Refused then world.failed + {r} else world.failed);
    }

    /** NewContainer with a new snapshot. */
    method NewContainer() returns (key: nat, created: bool)
      requires Valid()
      modifies this
      ensures Valid() && key == old(world).nextId && world.nextId == key + 1
      ensures created ==> Passes(old(world), world, {Container(key), Snapshot(key)}, {})
      ensures !created ==> Passes(old(world), world, {Snapshot(key)} + world.leaked, {})
      ensures world.failed == old(world).failed && world.clock == old(world).clock + 1
      ensures created <==> Answered(old(world).clock)
      ensures created ==> Container(key) in world.live && Snapshot(key) in world.live
      ensures created ==> world.leaked == old(world).leaked
    {
      var outcome := Call();
      key := world.nextId;
      created := outcome == Succeeds;
      var made := if outcome == Succeeds || outcome == FailsLate then {Snapshot(key), Container(key)}
                  else if outcome == FailsHalfway then {Snapshot(key)} else {};
      world := world.(live := world.live + made, nextId := key + 1,
                      leaked := if outcome == FailsLate then world.leaked + {Container(key)} else world.leaked);
    }

    /** Container.Delete with WithSnapshotCleanup: the snapshot goes first; a missing container is not looked past. */
    method DeleteWithSnapshot(key: nat) returns (d: Deletion)
      requires Valid()
      modifies this
      ensures Valid() && Passes(old(world), world, {}, {Container(key), Snapshot(key)})
      ensures world.nextId == old(world).nextId && world.clock == old(world).clock + 1
      ensures d.Refused? <==> !Answered(old(world).clock)
      ensures d.Deleted? ==> Container(key) !in world.live && Snapshot(key) !in world.live
      ensures d.NotFound? ==> world == Ticked(old(world))
      ensures Ticked(old(world)).vanished <= world.vanished
      ensures d.NotFound? <==> Answered(old(world).clock) && Container(key) !in Ticked(old(world)).live
      ensures world.failed == if d.Refused? then old(world).failed + {Container(key), Snapshot(key)}
          else old(world).failed
    {
      var outcome := Call();
      if outcome != Succeeds {
        var cleared := if Container(key) !in world.live || outcome == Fails then {}
                    else if outcome == FailsHalfway then {Snapshot(key)} else {Container(key), Snapshot(key)};
        world := world.(live := world.live - cleared, failed := world.failed + {Container(key), Snapshot(key)});
        return Refused;
      }
      if Container(key) !in world.live {
        return NotFound;
      }
      world := world.(live := world.live - {Container(key), Snapshot(key)});
      return Deleted;
    }

    // -------------------------------------------------------------------------------------------
    // Composition.

    lemma PassOn(a: World, b: World, c: World, made1: set<Resource>, made2: set<Resource>, deleted1: set<Resource>,
        deleted2: set<Resource>)
      requires Passes(a, b, made1, deleted1) && Passes(b, c, made2, deleted2)
      ensures Passes(a, c, made1 + made2, deleted1 + deleted2)
    {
      forall r | r in c.vanished ensures r in a.vanished || Disappears(r, a.clock, c.clock) {
        if r in b.vanished && r !in a.vanished {
          var t :| a.clock <= t < b.clock && r in gone(t);
        } else if r !in b.vanished {
          var t :| b.clock <= t < c.clock && r in gone(t);
        }
      }
    }

    lemma PassIdle(a: World, b: World, c: World, made: set<Resource>, deleted: set<Resource>)
      requires Passes(a, b, made, deleted) && Passes(b, c, {}, {})
      ensures Passes(a, c, made, deleted)
    {
      PassOn(a, b, c, made, {}, deleted, {});
      assert made + {} == made && deleted + {} == deleted;
    }

    lemma PassBoth(a: World, b: World, c: World, deleted1: set<Resource>, deleted2: set<Resource>)
      requires Passes(a, b, {}, deleted1) && Passes(b, c, {}, deleted2)
      ensures Passes(a, c, {}, deleted1 + deleted2)
    {
      PassOn(a, b, c, {}, {}, deleted1, deleted2);
      PassNarrower(a, c, {} + {}, {}, deleted1 + deleted2, deleted1 + deleted2);
    }

    /** What was not there cannot have been deleted, and what has to be counted as made is what is live. */
    lemma PassNarrower(a: World, b: World, made1: set<Resource>, made2: set<Resource>, deleted1: set<Resource>,
        deleted2: set<Resource>)
      requires Passes(a, b, made1, deleted1)
      requires deleted1 * a.live <= deleted2 && made1 * b.live <= made2
      ensures Passes(a, b, made2, deleted2)
    {
    }

    /** If nothing disappears between two ticks, nothing has disappeared. */
    lemma QuietPasses(a: World, b: World, made: set<Resource>, deleted: set<Resource>)
      requires Passes(a, b, made, deleted) && Quiet(a.clock, b.clock)
      ensures b.vanished == a.vanished
    {
    }
  }

  // ---------------------------------------------------------------------------------------------
  // The containerd client.

  /** Deletes what has been created since world a; if that fails it is on record. */
  method TakeBack(host: Host, ghost a: World, ghost made: set<Resource>, r: Resource)
    requires host.Valid() && r !in a.live
    requires host.Passes(a, host.world, made, {}) && made <= {r} + host.world.leaked
    modifies host
    ensures host.Valid() && host.Passes(a, host.world, host.world.Excused(), {})
  {
    ghost var b := host.world;
    var _ := host.Delete(r);
    host.PassOn(a, b, host.world, made, {}, {}, {r});
    host.PassNarrower(a, host.world, made + {}, host.world.Excused(), {} + {r}, {});
  }

  /** CreateWindowsContainer: a failed creation takes its snapshot back, or leaves it with a failed removal. */
  method CreateWindowsContainer(host: Host) returns (key: nat, created: bool)
    requires host.Valid()
    modifies host
    ensures host.Valid() && key == old(host.world).nextId
    ensures host.Passes(old(host.world), host.world,
        (if created then {Container(key), Snapshot(key)} else {}) + host.world.Excused(), {})
    ensures created <==> host.Answered(old(host.world).clock)
    ensures created ==> Container(key) in host.world.live && Snapshot(key) in host.world.live
    ensures created ==> host.world.SameFaults(old(host.world)) && host.world.clock == old(host.world).clock + 1
                        && host.world.nextId == key + 1
  {
    ghost var a := host.world;
    key, created := host.NewContainer();
    ghost var made := {Container(key), Snapshot(key)};
    if created {
      host.PassNarrower(a, host.world, made, made + host.world.Excused(), {}, {});
    } else {
      TakeBack(host, a, {Snapshot(key)} + host.world.leaked, Snapshot(key));
      assert {} + host.world.Excused() == host.world.Excused();
    }
  }

  /** CreateAndStartTask: a task that cannot be waited for or started is deleted again, or left with a failed
      deletion. */
  method CreateAndStartTask(host: Host) returns (task: Option<nat>)
    requires host.Valid()
    modifies host
    ensures host.Valid()
    ensures host.Passes(old(host.world), host.world,
        (if task.Some? then {Task(task.value)} else {}) + host.world.Excused(), {})
    ensures task.Some? <==> host.AllAnswered(old(host.world).clock, 3)
    ensures task.Some? ==> task.value == old(host.world).nextId
                           && (Task(task.value) in host.world.live || Task(task.value) in host.world.vanished)
    ensures task.Some? ==> host.world.SameFaults(old(host.world)) && host.world.clock == old(host.world).clock + 3
  {
    hide Host.Passes;
    ghost var a := host.world;
    var id := host.Create((n: nat) => Task(n));
    if id.None? {
      assert !host.Answered(a.clock);
      host.PassNarrower(a, host.world, host.world.leaked, {} + host.world.Excused(), {}, {});
      return None;
    }
    ghost var b := host.world;
    var r := Task(id.value);
    assert r !in a.live;
    var wait := host.Call();
    host.PassIdle(a, b, host.world, {r}, {});
    if wait != Succeeds {
      assert !host.Answered(a.clock + 1);
      TakeBack(host, a, {r}, r);
      assert {} + host.world.Excused() == host.world.Excused();
      return None;
    }
    b := host.world;
    var start := host.Call();
    host.PassIdle(a, b, host.world, {r}, {});
    if start != Succeeds {
      assert !host.Answered(a.clock + 2);
      TakeBack(host, a, {r}, r);
      assert {} + host.world.Excused() == host.world.Excused();
      return None;
    }
    host.PassNarrower(a, host.world, {r}, {r} + host.world.Excused(), {}, {});
    return id;
  }

  /** A snapshot whose container disappeared on its own. */
  predicate Orphan(r: Resource, vanished: set<Resource>) {
    r.Snapshot? && Container(r.id) in vanished
  }

  /** After its deletion, a resource is gone or an orphan, or the deletion failed. */
  ghost predicate Settled(w: World, rs: set<Resource>, ok: bool) {
    && (ok ==> forall r :: r in rs && r in w.live ==> Orphan(r, w.vanished))
    && (!ok ==> rs != {} && rs <= w.failed)
  }

  /** What an optional field leads to. */
  function TaskOf(task: Option<nat>): set<Resource> {
    if task.Some? then {Task(task.value)} else {}
  }

  function EndpointOf(endpoint: Option<nat>): set<Resource> {
    if endpoint.Some? then {Endpoint(endpoint.value)} else {}
  }

  function LeaseOf(lease: Option<nat>): set<Resource> {
    if lease.Some? then {Lease(lease.value)} else {}
  }

  function ContainerOf(created: Option<nat>): set<Resource> {
    if created.Some? then {Container(created.value), Snapshot(created.value)} else {}
  }

  method DeleteTask(host: Host, task: Option<nat>) returns (ok: bool)
    requires host.Valid()
    modifies host
    ensures host.Valid() && host.Passes(old(host.world), host.world, {}, TaskOf(task))
        && Settled(host.world, TaskOf(task), ok)
    ensures task.Some? ==> (ok <==> host.Answered(old(host.world).clock))
    ensures task.Some? && ok ==> Task(task.value) !in host.world.live
    ensures host.world.clock == old(host.world).clock + if task.Some? then 1 else 0
  {
    if task.None? {
      return true;
    }
    var d := host.Delete(Task(task.value));
    return d != Refused;
  }

  method DeleteEndpoint(host: Host, endpoint: Option<nat>) returns (ok: bool)
    requires host.Valid()
    modifies host
    ensures host.Valid() && host.Passes(old(host.world), host.world, {}, EndpointOf(endpoint))
        && Settled(host.world, EndpointOf(endpoint), ok)
    ensures endpoint.Some? ==> (ok <==> host.Answered(old(host.world).clock))
    ensures endpoint.Some? && ok ==> Endpoint(endpoint.value) !in host.world.live
    ensures host.world.clock == old(host.world).clock + if endpoint.Some? then 1 else 0
  {
    if endpoint.None? {
      return true;
    }
    var d := host.Delete(Endpoint(endpoint.value));
    return d != Refused;
  }

  method DeleteLease(host: Host, lease: Option<nat>) returns (ok: bool)
    requires host.Valid()
    modifies host
    ensures host.Valid() && host.Passes(old(host.world), host.world, {}, LeaseOf(lease))
        && Settled(host.world, LeaseOf(lease), ok)
    ensures lease.Some? ==> (ok <==> host.Answered(old(host.world).clock))
    ensures lease.Some? && ok ==> Lease(lease.value) !in host.world.live
    ensures host.world.clock == old(host.world).clock + if lease.Some? then 1 else 0
  {
    if lease.None? {
      return true;
    }
    var d := host.Delete(Lease(lease.value));
    return d != Refused;
  }

  /** The exact fate of a snapshot whose deletion is reported as a success: it is live at the end if and only if it
      was live when the first delete call, at `tick`, came to be answered (`at`), that call was answered, the
      container had disappeared on its own by then, and the snapshot did not disappear later. */
  ghost predicate SnapshotFate(host: Host, at: World, b: World, key: nat, tick: nat, ok: bool) {
    ok ==>
      (Snapshot(key) in b.live <==>
        && Snapshot(key) in at.live && Snapshot(key) !in b.vanished
        && host.Answered(tick) && Container(key) !in at.live)
  }

  /** The recovery path: the snapshot is removed, then the container without it, whatever the first answer is. */
  method Recover(host: Host, key: nat) returns (ok: bool)
    requires host.Valid()
    modifies host
    ensures host.Valid() && host.Passes(old(host.world), host.world, {}, ContainerOf(Some(key)))
    ensures ok <==> host.AllAnswered(old(host.world).clock, 2)
    ensures host.Answered(old(host.world).clock) ==> Snapshot(key) !in host.world.live
    ensures host.Answered(old(host.world).clock + 1) ==> Container(key) !in host.world.live
    ensures host.world.clock == old(host.world).clock + 2
    ensures old(host.world).failed <= host.world.failed && old(host.world).vanished <= host.world.vanished
  {
    ghost var a := host.world;
    ok := true;
    var s := host.Delete(Snapshot(key));
    ghost var b := host.world;
    if s == Refused {
      assert !host.Answered(a.clock);
      ok := false;
    }
    var c := host.Delete(Container(key));
    if c == Refused {
      assert !host.Answered(a.clock + 1);
      ok := false;
    }
    host.PassBoth(a, b, host.world, {Snapshot(key)}, {Container(key)});
    assert {Snapshot(key)} + {Container(key)} == ContainerOf(Some(key));
  }

  /** DeleteContainerAndSnapshot with its recovery path. It reports success exactly when its first call is answered, or
      when that fails and both calls of the recovery path are answered; then container and snapshot are gone - unless
      the container had disappeared on its own, which hides the snapshot from the first call: answered, that call then
      changes nothing and is taken for success. */
  method DeleteContainerAndSnapshot(host: Host, key: nat) returns (ok: bool)
    requires host.Valid() && (Container(key) in host.world.live || Container(key) in host.world.vanished)
    modifies host
    ensures host.Valid() && host.Passes(old(host.world), host.world, {}, ContainerOf(Some(key)))
    ensures Settled(host.world, ContainerOf(Some(key)), ok)
    ensures ok ==> Container(key) !in host.world.live
    ensures ok ==> Snapshot(key) !in host.world.live || Container(key) in host.world.vanished
    ensures SnapshotFate(host, host.Ticked(old(host.world)), host.world, key, old(host.world).clock, ok)
    ensures host.Ticked(old(host.world)).vanished <= host.world.vanished
    ensures ok <==> host.PairAnswered(old(host.world).clock)
    ensures host.PairGone(old(host.world).clock, host.world.live, key)
    ensures host.world.clock == old(host.world).clock + host.PairCalls(old(host.world).clock)
  {
    ghost var a := host.world;
    var d := host.DeleteWithSnapshot(key);
    if d == Deleted || d == NotFound {
      return true;
    }
    ghost var b := host.world;
    hide Host.Passes;
    ok := Recover(host, key);
    host.PassBoth(a, b, host.world, ContainerOf(Some(key)), ContainerOf(Some(key)));
    assert ContainerOf(Some(key)) + ContainerOf(Some(key)) == ContainerOf(Some(key));
  }

  // ---------------------------------------------------------------------------------------------
  // The runner.

  /** Everything live is recorded in a field, had a delete call that failed, was made by a creation call that reported
      an error, or is an orphaned snapshot. */
  ghost predicate Accounted(w: World, recorded: set<Resource>) {
    forall r :: r in w.live ==> r in recorded || r in w.Excused() || Orphan(r, w.vanished)
  }

  /** What a field records was created and has not been deleted by the runner. */
  ghost predicate Known(w: World, recorded: set<Resource>) {
    forall r :: r in recorded ==> r in w.live || r in w.vanished
  }

  lemma StaysAccounted(host: Host, a: World, b: World, made: set<Resource>, deleted: set<Resource>,
      before: set<Resource>, after: set<Resource>)
    requires host.Passes(a, b, made, deleted) && Accounted(a, before)
    requires before <= after && made * b.live <= after + b.Excused()
    ensures Accounted(b, after)
  {
    forall r | r in b.live ensures r in after || r in b.Excused() || Orphan(r, b.vanished) {
      assert r in a.live || r in made * b.live;
    }
  }

  lemma StaysKnown(host: Host, a: World, b: World, made: set<Resource>, recorded: set<Resource>)
    requires host.Passes(a, b, made, {}) && Known(a, recorded)
    ensures Known(b, recorded)
  {
  }

  /** Of a joined answer: nothing is left but orphans and what a delete call failed for; an error has a cause. */
  ghost predicate MostlySettled(w: World, rs: set<Resource>, ok: bool) {
    && (forall r :: r in rs && r in w.live ==> Orphan(r, w.vanished) || (!ok && r in w.failed))
    && (!ok ==> exists r :: r in rs && r in w.failed)
  }

  /** Two settled deletions settle what both were for: an error says that something of it could not be deleted. */
  lemma SettleTwo(w: World, rs1: set<Resource>, rs2: set<Resource>, ok1: bool, ok2: bool)
    requires MostlySettled(w, rs1, ok1) && MostlySettled(w, rs2, ok2)
    ensures MostlySettled(w, rs1 + rs2, ok1 && ok2)
  {
  }

  lemma SettledMostly(w: World, rs: set<Resource>, ok: bool)
    requires Settled(w, rs, ok)
    ensures MostlySettled(w, rs, ok)
  {
    if !ok {
      var r :| r in rs;
      assert r in w.failed;
    }
  }

  lemma StaysMostlySettled(host: Host, a: World, b: World, deleted: set<Resource>, rs: set<Resource>, ok: bool)
    requires host.Passes(a, b, {}, deleted) && MostlySettled(a, rs, ok)
    ensures MostlySettled(b, rs, ok)
  {
    if !ok {
      var r :| r in rs && r in a.failed;
      assert r in b.failed;
    }
  }

  /** The snapshot's fate is decided when its deletion ends. */
  lemma FateIsKept(host: Host, at: World, b: World, c: World, key: nat, tick: nat, before: bool, ok: bool,
      later: set<Resource>)
    requires Sane(c) && host.Passes(b, c, {}, later) && Snapshot(key) !in later
    requires SnapshotFate(host, at, b, key, tick, before) && (ok ==> before)
    ensures SnapshotFate(host, at, c, key, tick, ok)
  {
  }

  /** What is live afterwards is what was live before, has not disappeared, and was an orphan already or - if it was
      recorded - is a snapshot whose container was gone when the call to delete it came to be answered. */
  ghost predicate LeavesExactly(host: Host, a: World, at: World, b: World, recorded: set<Resource>, tick: nat) {
    forall r :: r in b.live <==>
      && r in a.live && r !in b.vanished
      && if r in recorded then r.Snapshot? && Container(r.id) !in at.live && host.Answered(tick)
        else Orphan(r, a.vanished)
  }

  lemma VanishedStays(host: Host, a: World, b: World, made: set<Resource>, deleted: set<Resource>)
    requires host.Passes(a, b, made, deleted)
    ensures a.vanished <= b.vanished
  {
  }

  lemma CleanupAccounts(host: Host, a: World, b: World, recorded: set<Resource>, ok: bool)
    requires host.Passes(a, b, {}, recorded) && Accounted(a, recorded) && MostlySettled(b, recorded, ok)
    ensures Accounted(b, {})
    ensures ok && a.Excused() * a.live == {} ==> forall r :: r in b.live ==> Orphan(r, b.vanished)
  {
  }

  lemma NothingIsLeft(w: World)
    requires w.vanished == {} && forall r :: r in w.live ==> Orphan(r, w.vanished)
    ensures w.live == {}
  {
    if r :| r in w.live {
      assert false;
    }
  }

  lemma CleanupLeaves(
      host: Host, a: World, at: World, b: World, recorded: set<Resource>, sooner: set<Resource>,
      created: Option<nat>, tick: nat, ok: bool)
    requires Sane(a) && host.Passes(a, b, {}, recorded) && Accounted(a, recorded) && MostlySettled(b, recorded, ok)
    requires ok && a.Excused() * a.live == {}
    requires forall r :: r in recorded && r.Snapshot? ==> created == Some(r.id)
    requires created.Some? ==>
               && host.Passes(a, at, {}, sooner) && Snapshot(created.value) !in sooner && at.vanished <= b.vanished
               && SnapshotFate(host, at, b, created.value, tick, ok)
    ensures LeavesExactly(host, a, at, b, recorded, tick)
  {
    forall r
      ensures r in b.live <==>
        && r in a.live && r !in b.vanished
        && if r in recorded then r.Snapshot? && Container(r.id) !in at.live && host.Answered(tick)
          else Orphan(r, a.vanished)
    {
      if r in b.live {
        assert r in a.live;
        assert r in recorded ==> Orphan(r, b.vanished);
      }
    }
  }

  /** Prepare's first calls: the snapshotter is detected and a lease created. */
  method CreateLease(host: Host) returns (lease: Option<nat>)
    requires host.Valid()
    modifies host
    ensures host.Valid()
    ensures host.Passes(old(host.world), host.world, if lease.Some? then LeaseOf(lease) else host.world.leaked, {})
    ensures lease.Some? <==> host.AllAnswered(old(host.world).clock, 2)
    ensures lease.Some? ==> && lease.value == old(host.world).nextId && host.world.nextId == lease.value + 1
                            && Lease(lease.value) in host.world.live
                            && host.world.SameFaults(old(host.world)) && host.world.clock == old(host.world).clock + 2
    ensures host.Answered(old(host.world).clock) && host.script(old(host.world).clock + 1) == FailsLate ==>
              Lease(old(host.world).nextId) in host.world.live && Lease(old(host.world).nextId) in host.world.leaked
  {
    hide Host.Passes;
    ghost var a := host.world;
    var detected := host.Call();
    if detected != Succeeds {
      assert !host.Answered(a.clock);
      host.PassNarrower(a, host.world, {}, host.world.leaked, {}, {});
      return None;
    }
    ghost var b := host.world;
    lease := host.Create((n: nat) => Lease(n));
    assert lease.None? ==> !host.Answered(a.clock + 1);
    ghost var made := if lease.Some? then LeaseOf(lease) else host.world.leaked;
    host.PassOn(a, b, host.world, {}, made, {}, {});
    host.PassNarrower(a, host.world, {} + made, made, {} + {}, {});
  }

  /** All of Prepare's calls: a lease, unless something after it fails. */
  method TakeLease(host: Host) returns (lease: Option<nat>)
    requires host.Valid()
    modifies host
    ensures host.Valid() && host.Passes(old(host.world), host.world, LeaseOf(lease) + host.world.Excused(), {})
    ensures lease.Some? <==> host.AllAnswered(old(host.world).clock, 3)
    ensures lease.Some? ==> && lease.value == old(host.world).nextId && host.world.nextId == lease.value + 1
                            && (Lease(lease.value) in host.world.live || Lease(lease.value) in host.world.vanished)
                            && host.world.SameFaults(old(host.world)) && host.world.clock == old(host.world).clock + 3
    ensures host.Answered(old(host.world).clock) && host.script(old(host.world).clock + 1) == FailsLate ==>
              Lease(old(host.world).nextId) in host.world.live && Lease(old(host.world).nextId) in host.world.leaked
  {
    hide Host.Passes;
    ghost var a := host.world;
    lease := CreateLease(host);
    if lease.None? {
      host.PassNarrower(a, host.world, host.world.leaked, {} + host.world.Excused(), {}, {});
      return None;
    }
    assert host.Answered(a.clock + 1);
    assert host.AllAnswered(a.clock, 3) <==> host.AllAnswered(a.clock, 2) && host.Answered(a.clock + 2);
    ghost var b := host.world;
    var image := host.Call();
    host.PassIdle(a, b, host.world, LeaseOf(lease), {});
    if image != Succeeds {
      TakeBack(host, a, LeaseOf(lease), Lease(lease.value));
      assert {} + host.world.Excused() == host.world.Excused();
      return None;
    }
    host.PassNarrower(a, host.world, LeaseOf(lease), LeaseOf(lease) + host.world.Excused(), {}, {});
  }

  class Runner {
    const host: Host
    var prepared: bool
    var networked: bool
    var leaseID: Option<nat>
    var endpoint: Option<nat>
    var created: Option<nat>
    var task: Option<nat>

    /** What the runner's fields lead to. */
    ghost function Recorded(): set<Resource>
      reads this
    {
      LeaseOf(leaseID) + EndpointOf(endpoint) + ContainerOf(created) + TaskOf(task)
    }

    ghost predicate Valid()
      reads this, host
    {
      && host.Valid() && Accounted(host.world, Recorded()) && Known(host.world, Recorded())
      && (!prepared ==> leaseID == None && endpoint == None && created == None && task == None)
    }

    constructor (h: Host)
      requires h.Valid() && h.world.live == {}
      ensures Valid() && host == h && !prepared && fresh(this)
    {
      host := h;
      prepared, networked := false, false;
      leaseID, endpoint, created, task := None, None, None, None;
    }

    lemma Idle()
      requires host.Valid()
      ensures host.Passes(host.world, host.world, Recorded() + host.world.Excused(), {})
    {
    }

    /** The invariant after a passage of the host that made only what is recorded now or failed to be deleted. */
    lemma Follow(a: World, made: set<Resource>, before: set<Resource>)
      requires host.Passes(a, host.world, made, {})
      requires Accounted(a, before) && Known(a, before) && before <= Recorded()
      requires made <= Recorded() + host.world.Excused()
      requires forall r :: r in Recorded() && r !in before ==> r in host.world.live || r in host.world.vanished
      ensures Accounted(host.world, Recorded()) && Known(host.world, Recorded())
      ensures host.Passes(a, host.world, Recorded() + host.world.Excused(), {})
    {
      StaysAccounted(host, a, host.world, made, {}, before, Recorded());
      StaysKnown(host, a, host.world, made, before);
      host.PassNarrower(a, host.world, made, Recorded() + host.world.Excused(), {}, {});
    }

    /** Two passages that each made only what was recorded at their end or failed to be deleted. */
    lemma RecordedPasses(a: World, b: World, between: set<Resource>)
      requires host.Passes(a, b, between + b.Excused(), {}) && between <= Recorded()
      requires host.Passes(b, host.world, Recorded() + host.world.Excused(), {})
      ensures host.Passes(a, host.world, Recorded() + host.world.Excused(), {})
    {
      host.PassOn(a, b, host.world, between + b.Excused(), Recorded() + host.world.Excused(), {}, {});
      host.PassNarrower(a, host.world, between + b.Excused() + (Recorded() + host.world.Excused()),
        Recorded() + host.world.Excused(), {} + {}, {});
    }

    /** Prepare; `configOk` is whether the configuration is accepted, `network` whether it names a network.
        A lease whose preparation fails later is deleted again. It succeeds exactly when nothing stands against it
        and its three calls are answered. */
    method Prepare(configOk: bool, network: bool) returns (ok: bool)
      requires Valid()
      modifies this, host
      ensures Valid() && ok == (prepared && !old(prepared))
      ensures ok <==> !old(prepared) && configOk && host.AllAnswered(old(host.world).clock, 3)
      ensures old(prepared) || !configOk ==> host.world == old(host.world)
      ensures ok ==> networked == network && leaseID == Some(old(host.world).nextId)
      ensures ok ==> host.world.nextId == old(host.world).nextId + 1 && host.world.SameFaults(old(host.world))
      ensures ok ==> host.world.clock == old(host.world).clock + 3
      ensures !ok ==> Recorded() == old(Recorded()) && prepared == old(prepared)
      ensures ok ==> endpoint.None? && created.None? && task.None?
      ensures var w := old(host.world);
              !old(prepared) && configOk && host.Answered(w.clock) && host.script(w.clock + 1) == FailsLate ==>
                !ok && Lease(w.nextId) in host.world.live && Lease(w.nextId) in host.world.leaked
      ensures host.Passes(old(host.world), host.world, Recorded() + host.world.Excused(), {})
    {
      if prepared || !configOk {
        Idle();
        return false;
      }
      ghost var a := host.world;
      var lease := TakeLease(host);
      if lease.Some? {
        networked := network;
        leaseID := lease;
        prepared := true;
      }
      assert lease.Some? ==> host.Answered(a.clock + 1);
      hide Accounted;
      hide Known;
      Follow(a, LeaseOf(lease) + host.world.Excused(), {});
      return lease.Some?;
    }

    /** Start's network half. */
    method Connect() returns (ok: bool)
      requires Valid() && prepared && endpoint.None?
      modifies this`endpoint, host
      ensures Valid() && (ok ==> host.world.SameFaults(old(host.world)))
      ensures ok <==> endpoint.Some?
      ensures ok <==> host.Answered(old(host.world).clock)
      ensures host.world.clock == old(host.world).clock + 1
      ensures ok ==> host.world.nextId == old(host.world).nextId + 1
      ensures old(Recorded()) <= Recorded()
      ensures host.Passes(old(host.world), host.world, Recorded() + host.world.Excused(), {})
    {
      ghost var a, before := host.world, Recorded();
      endpoint := host.Create((n: nat) => Endpoint(n));
      ok := endpoint.Some?;
      ghost var made := if ok then EndpointOf(endpoint) else host.world.leaked;
      hide Accounted;
      hide Known;
      Follow(a, made, before);
    }

    method CreateContainer() returns (made: bool)
      requires Valid() && prepared && created.None?
      modifies this`created, host
      ensures Valid() && old(Recorded()) <= Recorded()
      ensures made <==> host.Answered(old(host.world).clock)
      ensures made ==> created == Some(old(host.world).nextId) && host.world.SameFaults(old(host.world))
                       && host.world.clock == old(host.world).clock + 1
      ensures host.Passes(old(host.world), host.world, Recorded() + host.world.Excused(), {})
    {
      hide Accounted;
      hide Known;
      hide Host.Passes;
      ghost var a, before := host.world, Recorded();
      var key: nat;
      key, made := CreateWindowsContainer(host);
      if made {
        created := Some(key);
        Follow(a, {Container(key), Snapshot(key)} + host.world.Excused(), before);
      } else {
        Follow(a, {} + host.world.Excused(), before);
      }
    }

    method StartTask() returns (ok: bool)
      requires Valid() && prepared && task.None?
      modifies this`task, host
      ensures Valid() && old(Recorded()) <= Recorded()
      ensures ok <==> task.Some?
      ensures ok <==> host.AllAnswered(old(host.world).clock, 3)
      ensures ok ==> host.world.SameFaults(old(host.world)) && host.world.clock == old(host.world).clock + 3
      ensures host.Passes(old(host.world), host.world, Recorded() + host.world.Excused(), {})
    {
      hide Accounted;
      hide Known;
      hide Host.Passes;
      ghost var a, before := host.world, Recorded();
      task := CreateAndStartTask(host);
      ok := task.Some?;
      Follow(a, TaskOf(task) + host.world.Excused(), before);
    }

    /** Start's container and task half. */
    method Launch() returns (ok: bool)
      requires Valid() && prepared && created.None? && task.None?
      modifies this`created, this`task, host
      ensures Valid()
      ensures ok <==> host.AllAnswered(old(host.world).clock, 4)
      ensures ok ==> created == Some(old(host.world).nextId) && task.Some?
                     && host.world.SameFaults(old(host.world)) && host.world.clock == old(host.world).clock + 4
      ensures old(Recorded()) <= Recorded()
      ensures host.Passes(old(host.world), host.world, Recorded() + host.world.Excused(), {})
    {
      hide Accounted;
      hide Known;
      hide Host.Passes;
      ghost var a := host.world;
      var made := CreateContainer();
      if !made {
        assert !host.Answered(a.clock);
        return false;
      }
      ghost var b, between := host.world, Recorded();
      ok := StartTask();
      assert host.AllAnswered(a.clock, 4) <==> host.Answered(a.clock) && host.AllAnswered(a.clock + 1, 3);
      RecordedPasses(a, b, between);
    }

    /** Start. What it created before failing stays recorded for Cleanup, or was taken back. It succeeds exactly when
        it is prepared, not started, and its four or five calls are answered. */
    method Start() returns (ok: bool)
      requires Valid()
      modifies this, host
      ensures Valid() && prepared == old(prepared) && leaseID == old(leaseID) && networked == old(networked)
      ensures ok <==> && old(prepared) && old(endpoint).None? && old(created).None? && old(task).None?
                      && host.AllAnswered(old(host.world).clock, if networked then 5 else 4)
      ensures !old(prepared) || old(endpoint).Some? || old(created).Some? || old(task).Some? ==>
                Recorded() == old(Recorded()) && host.world == old(host.world)
      ensures ok ==> created.Some? && task.Some? && (endpoint.Some? <==> networked)
                     && host.world.SameFaults(old(host.world))
                     && host.world.clock == old(host.world).clock + (if networked then 5 else 4)
                     && created.value == old(host.world).nextId + (if networked then 1 else 0)
      ensures host.Passes(old(host.world), host.world, Recorded() + host.world.Excused(), {})
    {
      hide Accounted;
      hide Known;
      hide Host.Passes;
      ghost var a := host.world;
      if !prepared {
        Idle();
        return false;
      }
      if task.Some? || created.Some? || endpoint.Some? {
        Idle();
        return false;
      }
      if networked {
        var connected := Connect();
        if !connected {
          assert !host.Answered(a.clock);
          return false;
        }
        ghost var b, connection := host.world, Recorded();
        ok := Launch();
        RecordedPasses(a, b, connection);
        assert host.AllAnswered(a.clock, 5) <==> host.Answered(a.clock) && host.AllAnswered(a.clock + 1, 4);
      } else {
        ok := Launch();
      }
    }

    /** The tick of the first call to delete the container, if the deletions start in world w. */
    function Tick(w: World): nat
      reads this
    {
      w.clock + if task.Some? then 1 else 0
    }

    /** The tick of the first call behind those that delete task, container and snapshot. */
    function EndpointTick(w: World): nat
      reads this
    {
      Tick(w) + if created.Some? then host.PairCalls(Tick(w)) else 0
    }

    /** Task and container are deleted: the calls for what is recorded are answered, or the recovery path is. */
    predicate LaunchedAnswered(w: World)
      reads this
    {
      && (task.Some? ==> host.Answered(w.clock))
      && (created.Some? ==> host.PairAnswered(Tick(w)))
    }

    predicate BorrowedAnswered(tick: nat)
      reads this
    {
      && (endpoint.Some? ==> host.Answered(tick))
      && (leaseID.Some? ==> host.Answered(tick + if endpoint.Some? then 1 else 0))
    }

    /** Of task, container and snapshot, whatever its own call was answered for is not live. */
    predicate LaunchedGone(w: World, live: set<Resource>)
      reads this
    {
      && (task.Some? && host.Answered(w.clock) ==> Task(task.value) !in live)
      && (created.Some? ==> host.PairGone(Tick(w), live, created.value))
    }

    predicate BorrowedGone(tick: nat, live: set<Resource>)
      reads this
    {
      && (endpoint.Some? && host.Answered(tick) ==> Endpoint(endpoint.value) !in live)
      && (leaseID.Some? && host.Answered(tick + if endpoint.Some? then 1 else 0) ==> Lease(leaseID.value) !in live)
    }

    lemma StaysGone(w: World, a: World, b: World, deleted: set<Resource>)
      requires host.Passes(a, b, {}, deleted) && LaunchedGone(w, a.live)
      ensures LaunchedGone(w, b.live)
    {
    }

    /** If every call is answered, all of these are. */
    lemma AnsweredThroughout(w: World)
      requires host.EverAnswered(w.clock)
      ensures LaunchedAnswered(w) && BorrowedAnswered(EndpointTick(w))
    {
    }

    /** What is known of the world `at` the container's deletion, from its start a to its end b. */
    ghost predicate DeletedAt(a: World, at: World, b: World, ok: bool)
      reads this
    {
      created.Some? ==>
        && host.Passes(a, at, {}, TaskOf(task)) && at.vanished <= b.vanished
        && SnapshotFate(host, at, b, created.value, Tick(a), ok)
    }

    /** The first pair: the task, then the container with its snapshot; `at` is the world when the first call to
        delete the container comes to be answered. */
    method DeleteLaunched() returns (ok: bool, ghost at: World)
      requires Valid()
      modifies host
      ensures host.Valid() && host.Passes(old(host.world), host.world, {}, TaskOf(task) + ContainerOf(created))
      ensures MostlySettled(host.world, TaskOf(task) + ContainerOf(created), ok)
      ensures ok <==> LaunchedAnswered(old(host.world))
      ensures LaunchedGone(old(host.world), host.world.live)
      ensures host.world.clock == EndpointTick(old(host.world))
      ensures DeletedAt(old(host.world), at, host.world, ok)
    {
      ghost var a := host.world;
      var taskOk := DeleteTask(host, task);
      SettledMostly(host.world, TaskOf(task), taskOk);
      ok := taskOk;
      at := host.world;
      if created.Some? {
        ghost var b := host.world;
        assert Container(created.value) in b.live || Container(created.value) in b.vanished by {
          assert Container(created.value) in a.live || Container(created.value) in a.vanished;
        }
        hide Host.Passes;
        hide Accounted;
        hide Known;
        hide MostlySettled;
        var createdOk := DeleteContainerAndSnapshot(host, created.value);
        ok := taskOk && createdOk;
        at := host.Ticked(b);
        host.TickPasses(b);
        host.PassIdle(a, b, at, {}, TaskOf(task));
        SettledMostly(host.world, ContainerOf(created), createdOk);
        StaysMostlySettled(host, b, host.world, ContainerOf(created), TaskOf(task), taskOk);
        SettleTwo(host.world, TaskOf(task), ContainerOf(created), taskOk, createdOk);
        host.PassBoth(a, b, host.world, TaskOf(task), ContainerOf(created));
      } else {
        assert TaskOf(task) + ContainerOf(created) == TaskOf(task);
      }
    }

    /** The second pair: the endpoint, then the lease. */
    method DeleteBorrowed() returns (ok: bool)
      requires host.Valid()
      modifies host
      ensures host.Valid() && host.Passes(old(host.world), host.world, {}, EndpointOf(endpoint) + LeaseOf(leaseID))
      ensures MostlySettled(host.world, EndpointOf(endpoint) + LeaseOf(leaseID), ok)
      ensures ok <==> BorrowedAnswered(old(host.world).clock)
      ensures BorrowedGone(old(host.world).clock, host.world.live)
    {
      ghost var a := host.world;
      var endpointOk := DeleteEndpoint(host, endpoint);
      ghost var b := host.world;
      SettledMostly(b, EndpointOf(endpoint), endpointOk);
      var leaseOk := DeleteLease(host, leaseID);
      ok := endpointOk && leaseOk;
      SettledMostly(host.world, LeaseOf(leaseID), leaseOk);
      StaysMostlySettled(host, b, host.world, LeaseOf(leaseID), EndpointOf(endpoint), endpointOk);
      SettleTwo(host.world, EndpointOf(endpoint), LeaseOf(leaseID), endpointOk, leaseOk);
      host.PassBoth(a, b, host.world, EndpointOf(endpoint), LeaseOf(leaseID));
    }

    /** Cleanup's deletions: every one is attempted, whatever the others answer. */
    method DeleteRecorded() returns (ok: bool, ghost at: World)
      requires Valid()
      modifies host
      ensures host.Valid() && host.Passes(old(host.world), host.world, {}, Recorded())
      ensures MostlySettled(host.world, Recorded(), ok)
      ensures ok <==> LaunchedAnswered(old(host.world)) && BorrowedAnswered(EndpointTick(old(host.world)))
      ensures LaunchedGone(old(host.world), host.world.live)
      ensures BorrowedGone(EndpointTick(old(host.world)), host.world.live)
      ensures DeletedAt(old(host.world), at, host.world, ok)
    {
      hide Host.Passes;
      hide SnapshotFate;
      hide Accounted;
      hide Known;
      ghost var a := host.world;
      var ok1: bool;
      ok1, at := DeleteLaunched();
      ghost var b := host.world;
      var ok2 := DeleteBorrowed();
      ok := ok1 && ok2;
      ghost var rs1, rs2 := TaskOf(task) + ContainerOf(created), EndpointOf(endpoint) + LeaseOf(leaseID);
      hide MostlySettled;
      host.PassBoth(a, b, host.world, rs1, rs2);
      assert rs1 + rs2 == Recorded();
      StaysMostlySettled(host, b, host.world, rs2, rs1, ok1);
      StaysGone(a, b, host.world, rs2);
      SettleTwo(host.world, rs1, rs2, ok1, ok2);
      if created.Some? {
        FateIsKept(host, at, b, host.world, created.value, Tick(a), ok1, ok, rs2);
        VanishedStays(host, b, host.world, {}, rs2);
      }
    }

    /** Cleanup clears every field whatever happens, and reports success exactly when each of its deletions is answered
        in its turn, the container's by the recovery path if need be. If it does so and no call had failed before that
        has to be blamed, what is left is exactly this: the orphans from before, and its own snapshot if the container
        had disappeared by the time the call to delete it came to be answered; less what disappeared meanwhile. */
    method Cleanup() returns (ok: bool, ghost at: World)
      requires Valid()
      modifies this, host
      ensures Valid() && !prepared && Recorded() == {}
      ensures host.Passes(old(host.world), host.world, {}, old(Recorded()))
      ensures MostlySettled(host.world, old(Recorded()), ok)
      ensures ok <==> old(LaunchedAnswered(host.world) && BorrowedAnswered(EndpointTick(host.world)))
      ensures var live := host.world.live;
              old(LaunchedGone(host.world, live) && BorrowedGone(EndpointTick(host.world), live))
      ensures old(created).Some? ==> host.Passes(old(host.world), at, {}, TaskOf(old(task)))
      ensures ok && old(host.world).Excused() * old(host.world).live == {} ==>
                && LeavesExactly(host, old(host.world), at, host.world, old(Recorded()), old(Tick(host.world)))
                && forall r :: r in host.world.live ==> Orphan(r, host.world.vanished)
      ensures ok && old(host.world).Excused() * old(host.world).live == {} && old(host.world).vanished == {} ==>
                host.Quiet(old(host.world).clock, host.world.clock) ==> host.world.live == {}
    {
      hide Host.Passes;
      hide SnapshotFate;
      hide LeavesExactly;
      hide MostlySettled;
      ghost var a, recorded, tick, key, sooner := host.world, Recorded(), Tick(host.world), created, TaskOf(task);
      ok, at := DeleteRecorded();
      task := None;
      created := None;
      endpoint := None;
      leaseID := None;
      prepared := false;
      CleanupAccounts(host, a, host.world, recorded, ok);
      if ok && a.Excused() * a.live == {} {
        CleanupLeaves(host, a, at, host.world, recorded, sooner, key, tick, ok);
        if host.Quiet(a.clock, host.world.clock) {
          host.QuietPasses(a, host.world, {}, recorded);
          if a.vanished == {} {
            NothingIsLeft(host.world);
          }
        }
      }
    }
  }

  datatype Operation = DoPrepare(configOk: bool, network: bool) | DoStart | DoCleanup

  method Operate(runner: Runner, operation: Operation) returns (ok: bool)
    requires runner.Valid()
    modifies runner, runner.host
    ensures runner.Valid()
    ensures var a, b := old(runner.host.world), runner.host.world;
            && a.clock <= b.clock && a.Excused() <= b.Excused()
            && (runner.host.Quiet(a.clock, b.clock) ==> b.vanished == a.vanished)
            && (operation.DoCleanup? ==> runner.Recorded() == {})
            && (operation.DoCleanup? && ok && a.Excused() == {} && a.vanished == {} ==>
                  runner.host.Quiet(a.clock, b.clock) ==> b.live == {})
  {
    ghost var a := runner.host.world;
    match operation {
      case DoPrepare(configOk, network) => ok := runner.Prepare(configOk, network);
      case DoStart => ok := runner.Start();
      case DoCleanup =>
        ghost var at: World;
        ok, at := runner.Cleanup();
    }
    assert runner.host.Quiet(a.clock, runner.host.world.clock) ==> runner.host.world.vanished == a.vanished;
  }

  /** Any sequence of lifecycle calls, with every call free to fail, keeps everything accounted for. If nothing
      disappears on its own, whatever is live after a closing Cleanup had a delete call that failed or was made by a
      creation call that reported an error; and if that Cleanup succeeds and neither had happened before it, nothing
      is live. */
  method Lifecycle(runner: Runner, operations: seq<Operation>)
      returns (answers: seq<bool>, ghost earlier: set<Resource>)
    requires runner.Valid()
    modifies runner, runner.host
    ensures runner.Valid() && |answers| == |operations|
    ensures old(runner.host.world).Excused() <= earlier <= runner.host.world.Excused()
    ensures operations != [] && operations[|operations| - 1].DoCleanup? ==> Accounted(runner.host.world, {})
    ensures var a, b := old(runner.host.world), runner.host.world;
            a.vanished == {} && runner.host.Quiet(a.clock, b.clock) ==>
              && b.vanished == {}
              && (operations != [] && operations[|operations| - 1].DoCleanup? ==>
                    && b.live <= b.Excused()
                    && (answers[|answers| - 1] && earlier == {} ==> b.live == {}))
  {
    ghost var a := runner.host.world;
    answers, earlier := [], a.Excused();
    for i := 0 to |operations|
      invariant runner.Valid() && |answers| == i
      invariant a.clock <= runner.host.world.clock && a.Excused() <= earlier <= runner.host.world.Excused()
      invariant i > 0 && operations[i - 1].DoCleanup? ==> runner.Recorded() == {}
      invariant a.vanished == {} && runner.host.Quiet(a.clock, runner.host.world.clock) ==>
                  && runner.host.world.vanished == {}
                  && (i > 0 && operations[i - 1].DoCleanup? && answers[i - 1] && earlier == {} ==>
                    runner.host.world.live == {})
    {
      earlier := runner.host.world.Excused();
      var ok := Operate(runner, operations[i]);
      answers := answers + [ok];
    }
  }

  lemma OnlyOrphan(host: Host, a: World, at: World, b: World, recorded: set<Resource>, sooner: set<Resource>, tick: nat)
    requires LeavesExactly(host, a, at, b, recorded, tick) && host.Answered(tick) && host.Passes(a, at, {}, sooner)
    requires a.vanished == b.vanished == {Container(1)} && Snapshot(1) in a.live && Container(1) !in a.live
    requires forall r :: r in recorded && r.Snapshot? ==> r == Snapshot(1)
    ensures b.live == {Snapshot(1)}
  {
    forall r ensures r in b.live <==> r == Snapshot(1) {
      assert r in b.live <==>
        && r in a.live && r !in b.vanished
        && if r in recorded then r.Snapshot? && Container(r.id) !in at.live && host.Answered(tick)
          else Orphan(r, a.vanished);
    }
  }

  /** A host that answers every call and from which container 1 disappears on its own at tick 7. */
  method ForgetfulHost() returns (host: Host)
    ensures fresh(host) && host.Valid() && host.world == EMPTY_WORLD
    ensures host.EverAnswered(0) && host.Quiet(0, 7) && host.gone(7) == {Container(1)}
    ensures forall t :: t != 7 ==> host.gone(t) == {}
  {
    host := new Host(_ => Succeeds, t => if t == 7 then {Container(1)} else {});
  }

  method Launched(host: Host) returns (runner: Runner)
    requires host.Valid() && host.world == EMPTY_WORLD && host.EverAnswered(0) && host.Quiet(0, 7)
    modifies host
    ensures fresh(runner) && runner.Valid() && runner.host == host
    ensures runner.created == Some(1) && runner.task.Some?
    ensures host.world.vanished == {} && host.world.Excused() == {} && host.world.clock == 7
    ensures Container(1) in host.world.live && Snapshot(1) in host.world.live
  {
    hide Host.Passes;
    hide Accounted;
    runner := new Runner(host);
    ghost var w0 := host.world;
    var prepared := runner.Prepare(true, false);
    ghost var w1 := host.world;
    host.QuietPasses(w0, w1, runner.Recorded() + w1.Excused(), {});
    var started := runner.Start();
    host.QuietPasses(w1, host.world, runner.Recorded() + host.world.Excused(), {});
    assert Container(1) in runner.Recorded() && Snapshot(1) in runner.Recorded();
  }

  /** The orphan at a concrete host: every call is answered, and container 1 disappears on its own at tick 7,
      between Start and Cleanup. Cleanup reports success and leaves its snapshot live. */
  method ForgottenSnapshot() returns (ok: bool, left: set<Resource>)
    ensures ok && left == {Snapshot(1)}
  {
    hide Host.Passes;
    hide Accounted;
    hide Known;
    var host := ForgetfulHost();
    var runner := Launched(host);
    ghost var before := host.world;
    var other := host.Call();
    assert host.world.vanished == {Container(1)} && Snapshot(1) in host.world.live;
    ghost var w, recorded := host.world, runner.Recorded();
    StaysAccounted(host, before, w, {}, {}, recorded, recorded);
    StaysKnown(host, before, w, {}, recorded);
    ghost var sooner := TaskOf(runner.task);
    ghost var at: World;
    runner.AnsweredThroughout(w);
    hide Runner.LaunchedAnswered;
    hide Runner.BorrowedAnswered;
    hide Runner.EndpointTick;
    ok, at := runner.Cleanup();
    left := host.world.live;
    assert host.Quiet(8, host.world.clock);
    host.QuietPasses(w, host.world, {}, recorded);
    OnlyOrphan(host, w, at, host.world, recorded, sooner, 9);
  }

  /** A lease whose creation takes effect but reports an error is live, and the runner has no record of it. */
  method LeakedLease() returns (ok: bool, left: set<Resource>)
    ensures !ok && Lease(0) in left
  {
    var host := new Host(t => if t == 1 then FailsLate else Succeeds, t => {});
    var runner := new Runner(host);
    ok := runner.Prepare(true, false);
    left := host.world.live;
    assert runner.Recorded() == {};
  }
}
