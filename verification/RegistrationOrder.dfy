/** Start, Rundown and bootstrap registrations of one lifetime: when their order does not matter. */
module RegistrationOrder {
  import opened Prelude
  import opened ProcessStore
  import opened ProcessHandlers
  import opened Lifetimes

  /** Registering one context after the other; the answers, in order. */
  ghost function RegisterAll(s: Store, cs: seq<ProcessContext>): (r: (Store, seq<Option<Registration>>))
    requires s.nextKey < U64
    ensures r.0.nextKey < U64
  {
    if cs == [] then (s, [])
    else
      var (t, answers) := RegisterAll(s, cs[..|cs| - 1]);
      var (u, answer) := Registered(t, true, cs[|cs| - 1]);
      (u, answers + [answer])
  }

  /** Registrations of one lifetime as the providers make them. */
  ghost predicate OfLifetime(cs: seq<ProcessContext>, pid: nat, ticks: nat) {
    pid != 0 && ticks != 0 && forall i :: 0 <= i < |cs| ==> SameLifetime(cs[i], pid, ticks) && Blank(cs[i])
  }

  /** The last non-empty value. */
  ghost function LastKnown<T>(values: seq<T>, empty: T): T {
    if values == [] then empty
    else if values[|values| - 1] != empty then values[|values| - 1]
    else LastKnown(values[..|values| - 1], empty)
  }

  function Parents(cs: seq<ProcessContext>): (r: seq<nat>) ensures |r| == |cs| {
    seq(|cs|, i requires 0 <= i < |cs| => cs[i].parentPid)
  }

  function Sequences(cs: seq<ProcessContext>): (r: seq<nat>) ensures |r| == |cs| {
    seq(|cs|, i requires 0 <= i < |cs| => cs[i].processSequenceNumber)
  }

  function Images(cs: seq<ProcessContext>): (r: seq<string>) ensures |r| == |cs| {
    seq(|cs|, i requires 0 <= i < |cs| => cs[i].image)
  }

  function CommandLines(cs: seq<ProcessContext>): (r: seq<string>) ensures |r| == |cs| {
    seq(|cs|, i requires 0 <= i < |cs| => cs[i].commandLine)
  }

  function UserSids(cs: seq<ProcessContext>): (r: seq<string>) ensures |r| == |cs| {
    seq(|cs|, i requires 0 <= i < |cs| => cs[i].userSid)
  }

  function IntegritySids(cs: seq<ProcessContext>): (r: seq<string>) ensures |r| == |cs| {
    seq(|cs|, i requires 0 <= i < |cs| => cs[i].integritySid)
  }

  /** The context a list of registrations amounts to: the first one, with the last known value in each field. */
  ghost function Combined(cs: seq<ProcessContext>, key: nat): ProcessContext
    requires cs != []
  {
    cs[0].(
      uniqueProcessKey := key,
      parentPid := LastKnown(Parents(cs), 0),
      processSequenceNumber := LastKnown(Sequences(cs), 0),
      image := LastKnown(Images(cs), ""),
      commandLine := LastKnown(CommandLines(cs), ""),
      userSid := LastKnown(UserSids(cs), ""),
      integritySid := LastKnown(IntegritySids(cs), ""))
  }

  lemma FrontsOf(cs: seq<ProcessContext>)
    requires cs != []
    ensures var f := cs[..|cs| - 1];
            && Parents(cs)[..|f|] == Parents(f) && Sequences(cs)[..|f|] == Sequences(f)
            && Images(cs)[..|f|] == Images(f) && CommandLines(cs)[..|f|] == CommandLines(f)
            && UserSids(cs)[..|f|] == UserSids(f) && IntegritySids(cs)[..|f|] == IntegritySids(f)
  {
  }

  lemma CombinedStep(cs: seq<ProcessContext>, key: nat)
    requires |cs| > 1
    ensures Combined(cs, key) == Merge(Combined(cs[..|cs| - 1], key), cs[|cs| - 1])
  {
    FrontsOf(cs);
  }

  lemma LastKnownOfOne<T>(values: seq<T>, empty: T)
    requires |values| == 1
    ensures LastKnown(values, empty) == values[0]
  {
    assert values[..0] == [];
  }

  lemma CombinedOne(cs: seq<ProcessContext>, key: nat)
    requires |cs| == 1
    ensures Combined(cs, key) == cs[0].(uniqueProcessKey := key)
  {
    LastKnownOfOne(Parents(cs), 0);
    LastKnownOfOne(Sequences(cs), 0);
    LastKnownOfOne(Images(cs), "");
    LastKnownOfOne(CommandLines(cs), "");
    LastKnownOfOne(UserSids(cs), "");
    LastKnownOfOne(IntegritySids(cs), "");
  }

  /** Into a store that does not know the lifetime, they insert one context under one fresh key, once. */
  lemma {:induction false} RegisterAllInserts(s: Store, cs: seq<ProcessContext>, pid: nat, ticks: nat)
    requires Invariant(s) && s.nextKey + 1 < U64
    requires cs != [] && OfLifetime(cs, pid, ticks)
    requires HolderOf(s.contexts, pid, ticks).None?
    ensures var (t, answers) := RegisterAll(s, cs);
            && t == Store(s.contexts[s.nextKey := Combined(cs, s.nextKey)], s.nextKey + 1)
            && |answers| == |cs| && answers[0] == Some(Registration(s.nextKey, true))
            && forall i :: 0 < i < |cs| ==> answers[i] == Some(Registration(s.nextKey, false))
  {
    hide Registered;
    hide Combined;
    hide Invariant;
    hide Blank;
    var n := |cs| - 1;
    if n == 0 {
      RegisterNew(s, cs[0], pid, ticks);
      CombinedOne(cs, s.nextKey);
      assert cs[..0] == [];
    } else {
      RegisterAllInserts(s, cs[..n], pid, ticks);
      CombinedStep(cs, s.nextKey);
      CombinedLifetime(cs[..n], s.nextKey);
      RegisterAgain(s, Combined(cs[..n], s.nextKey), cs[n], pid, ticks);
    }
  }

  lemma CombinedLifetime(cs: seq<ProcessContext>, key: nat)
    requires cs != []
    ensures SameLifetime(Combined(cs, key), cs[0].pid, cs[0].createTimeTicks)
  {
  }

  /** The first registration of a lifetime. */
  lemma RegisterNew(s: Store, c: ProcessContext, pid: nat, ticks: nat)
    requires Invariant(s) && s.nextKey + 1 < U64 && pid != 0 && ticks != 0
    requires SameLifetime(c, pid, ticks) && HolderOf(s.contexts, pid, ticks).None?
    ensures Registered(s, true, c) ==
            (Store(s.contexts[s.nextKey := c.(uniqueProcessKey := s.nextKey)], s.nextKey + 1),
              Some(Registration(s.nextKey, true)))
  {
    DenseKey(s);
  }

  /** A further one. */
  lemma RegisterAgain(s: Store, known: ProcessContext, c: ProcessContext, pid: nat, ticks: nat)
    requires Invariant(s) && s.nextKey + 1 < U64 && pid != 0 && ticks != 0
    requires SameLifetime(c, pid, ticks) && SameLifetime(known, pid, ticks) && HolderOf(s.contexts, pid, ticks).None?
    ensures Registered(Store(s.contexts[s.nextKey := known], s.nextKey + 1), true, c) ==
            (Store(s.contexts[s.nextKey := Merge(known, c)], s.nextKey + 1), Some(Registration(s.nextKey, false)))
  {
    SoleHolder(s, known, pid, ticks);
    assert s.contexts[s.nextKey := known][s.nextKey := Merge(known, c)] == s.contexts[s.nextKey := Merge(known, c)];
  }

  lemma SoleHolder(s: Store, c: ProcessContext, pid: nat, ticks: nat)
    requires Invariant(s) && HolderOf(s.contexts, pid, ticks).None? && SameLifetime(c, pid, ticks)
    ensures HolderOf(s.contexts[s.nextKey := c], pid, ticks) == Some(s.nextKey)
  {
    var after := s.contexts[s.nextKey := c];
    HolderFound(after, pid, ticks, s.nextKey);
    forall k | k in s.contexts ensures !SameLifetime(s.contexts[k], pid, ticks) {
      if SameLifetime(s.contexts[k], pid, ticks) { HolderFound(s.contexts, pid, ticks, k); }
    }
  }

  // ---------------------------------------------------------------------------------------------

  ghost predicate ValuesAgree<T>(values: seq<T>, empty: T) {
    forall i, j :: 0 <= i < |values| && 0 <= j < |values| && values[i] != empty && values[j] != empty ==>
      values[i] == values[j]
  }

  /** Wherever two registrations both know a field, they know the same. */
  ghost predicate FieldsAgree(cs: seq<ProcessContext>) {
    && ValuesAgree(Parents(cs), 0) && ValuesAgree(Sequences(cs), 0)
    && ValuesAgree(Images(cs), "") && ValuesAgree(CommandLines(cs), "")
    && ValuesAgree(UserSids(cs), "") && ValuesAgree(IntegritySids(cs), "")
  }

  /** And they agree on the start time. */
  ghost predicate Agree(cs: seq<ProcessContext>) {
    && FieldsAgree(cs)
    && forall i, j :: 0 <= i < |cs| && 0 <= j < |cs| ==> cs[i].startTime == cs[j].startTime
  }

  lemma {:induction false} LastKnownIs<T>(values: seq<T>, empty: T, i: nat)
    requires ValuesAgree(values, empty) && i < |values| && values[i] != empty
    ensures LastKnown(values, empty) == values[i]
  {
    var n := |values| - 1;
    if values[n] == empty {
      LastKnownIs(values[..n], empty, i);
    }
  }

  lemma {:induction false} NothingKnown<T>(values: seq<T>, empty: T)
    requires forall i :: 0 <= i < |values| ==> values[i] == empty
    ensures LastKnown(values, empty) == empty
  {
    if values != [] {
      NothingKnown(values[..|values| - 1], empty);
    }
  }

  lemma LastKnownOfSame<T>(a: seq<T>, b: seq<T>, empty: T)
    requires ValuesAgree(a, empty) && ValuesAgree(b, empty)
    requires forall x :: x in a <==> x in b
    ensures LastKnown(a, empty) == LastKnown(b, empty)
  {
    if i :| 0 <= i < |a| && a[i] != empty {
      assert a[i] in b;
      var j :| 0 <= j < |b| && b[j] == a[i];
      LastKnownIs(a, empty, i);
      LastKnownIs(b, empty, j);
    } else {
      forall j | 0 <= j < |b| ensures b[j] == empty { assert b[j] in a; }
      NothingKnown(a, empty);
      NothingKnown(b, empty);
    }
  }

  ghost predicate Permuted(a: seq<ProcessContext>, b: seq<ProcessContext>) {
    multiset(a) == multiset(b)
  }

  lemma PermutedMembers(a: seq<ProcessContext>, b: seq<ProcessContext>, c: ProcessContext)
    requires Permuted(a, b) && c in a
    ensures c in b
  {
    assert c in multiset(a);
  }

  /** The members of a permutation are the same, so they agree as well and know the same values. */
  lemma PermutedValues(a: seq<ProcessContext>, b: seq<ProcessContext>)
    requires Permuted(a, b)
    ensures |a| == |b|
    ensures forall x :: x in Parents(a) ==> x in Parents(b)
    ensures forall x :: x in Sequences(a) ==> x in Sequences(b)
    ensures forall x :: x in Images(a) ==> x in Images(b)
    ensures forall x :: x in CommandLines(a) ==> x in CommandLines(b)
    ensures forall x :: x in UserSids(a) ==> x in UserSids(b)
    ensures forall x :: x in IntegritySids(a) ==> x in IntegritySids(b)
    ensures forall i :: 0 <= i < |a| ==> exists j :: 0 <= j < |b| && b[j] == a[i]
  {
    assert |multiset(a)| == |multiset(b)|;
    forall i | 0 <= i < |a| ensures exists j :: 0 <= j < |b| && b[j] == a[i] {
      PermutedMembers(a, b, a[i]);
    }
    forall i | 0 <= i < |a|
      ensures Parents(a)[i] in Parents(b) && Sequences(a)[i] in Sequences(b) && Images(a)[i] in Images(b)
      ensures CommandLines(a)[i] in CommandLines(b) && UserSids(a)[i] in UserSids(b)
          && IntegritySids(a)[i] in IntegritySids(b)
    {
      var j :| 0 <= j < |b| && b[j] == a[i];
      assert Parents(b)[j] == Parents(a)[i] && Sequences(b)[j] == Sequences(a)[i] && Images(b)[j] == Images(a)[i];
      assert CommandLines(b)[j] == CommandLines(a)[i] && UserSids(b)[j] == UserSids(a)[i]
        && IntegritySids(b)[j] == IntegritySids(a)[i];
    }
  }

  lemma AgreementIsShared<T>(a: seq<T>, b: seq<T>, empty: T)
    requires ValuesAgree(a, empty) && forall x :: x in b ==> x in a
    ensures ValuesAgree(b, empty)
  {
    forall i, j | 0 <= i < |b| && 0 <= j < |b| && b[i] != empty && b[j] != empty ensures b[i] == b[j] {
      assert b[i] in a && b[j] in a;
    }
  }

  lemma SameField<T>(a: seq<T>, b: seq<T>, empty: T)
    requires ValuesAgree(a, empty) && forall x :: x in a <==> x in b
    ensures LastKnown(a, empty) == LastKnown(b, empty)
  {
    AgreementIsShared(a, b, empty);
    LastKnownOfSame(a, b, empty);
  }

  lemma PermutedLifetime(a: seq<ProcessContext>, b: seq<ProcessContext>, pid: nat, ticks: nat) returns (j: nat)
    requires a != [] && Permuted(a, b) && OfLifetime(a, pid, ticks)
    ensures b != [] && OfLifetime(b, pid, ticks)
    ensures j < |a| && b[0] == a[j]
  {
    PermutedValues(b, a);
    j :| 0 <= j < |a| && a[j] == b[0];
  }

  lemma SameCombined(a: seq<ProcessContext>, b: seq<ProcessContext>, key: nat, pid: nat, ticks: nat)
    requires a != [] && Agree(a) && Permuted(a, b) && OfLifetime(a, pid, ticks)
    ensures b != [] && Combined(a, key) == Combined(b, key)
  {
    hide LastKnown;
    var j := PermutedLifetime(a, b, pid, ticks);
    assert a[j].startTime == a[0].startTime;
    PermutedValues(a, b);
    PermutedValues(b, a);
    SameField(Parents(a), Parents(b), 0);
    SameField(Sequences(a), Sequences(b), 0);
    SameField(Images(a), Images(b), "");
    SameField(CommandLines(a), CommandLines(b), "");
    SameField(UserSids(a), UserSids(b), "");
    SameField(IntegritySids(a), IntegritySids(b), "");
    CombinedFromFields(a, b, key, pid, ticks);
  }

  lemma CombinedFromFields(a: seq<ProcessContext>, b: seq<ProcessContext>, key: nat, pid: nat, ticks: nat)
    requires a != [] && b != [] && OfLifetime(a, pid, ticks) && OfLifetime(b, pid, ticks)
        && a[0].startTime == b[0].startTime
    requires LastKnown(Parents(a), 0) == LastKnown(Parents(b), 0)
        && LastKnown(Sequences(a), 0) == LastKnown(Sequences(b), 0)
    requires LastKnown(Images(a), "") == LastKnown(Images(b), "")
        && LastKnown(CommandLines(a), "") == LastKnown(CommandLines(b), "")
    requires LastKnown(UserSids(a), "") == LastKnown(UserSids(b), "")
        && LastKnown(IntegritySids(a), "") == LastKnown(IntegritySids(b), "")
    ensures Combined(a, key) == Combined(b, key)
  {
    hide LastKnown;
    assert SameLifetime(a[0], pid, ticks) && Blank(a[0]) && SameLifetime(b[0], pid, ticks) && Blank(b[0]);
  }

  /** a with its element i moved to the end. */
  function MovedLast(a: seq<ProcessContext>, i: nat): seq<ProcessContext>
    requires i < |a|
  {
    a[..i] + a[i + 1..] + [a[i]]
  }

  function MovedFirst(a: seq<ProcessContext>, i: nat): seq<ProcessContext>
    requires i < |a|
  {
    [a[i]] + a[..i] + a[i + 1..]
  }

  lemma MovedArePermuted(a: seq<ProcessContext>, i: nat)
    requires i < |a|
    ensures Permuted(a, MovedLast(a, i)) && Permuted(a, MovedFirst(a, i))
  {
    assert a == a[..i] + [a[i]] + a[i + 1..];
  }

  /** Whoever comes last has its known fields in the result. */
  lemma LastWins(a: seq<ProcessContext>, i: nat, key: nat)
    requires i < |a|
    ensures var c := Combined(MovedLast(a, i), key);
            && (a[i].parentPid != 0 ==> c.parentPid == a[i].parentPid)
            && (a[i].processSequenceNumber != 0 ==> c.processSequenceNumber == a[i].processSequenceNumber)
            && (a[i].image != "" ==> c.image == a[i].image)
            && (a[i].commandLine != "" ==> c.commandLine == a[i].commandLine)
            && (a[i].userSid != "" ==> c.userSid == a[i].userSid)
            && (a[i].integritySid != "" ==> c.integritySid == a[i].integritySid)
  {
  }

  ghost predicate OrderIrrelevant(a: seq<ProcessContext>, key: nat)
    requires a != []
  {
    forall b :: b != [] && Permuted(a, b) ==> Combined(b, key) == Combined(a, key)
  }

  lemma OrderNeedsAgreement(a: seq<ProcessContext>, key: nat)
    requires a != [] && OrderIrrelevant(a, key)
    ensures Agree(a)
  {
    hide LastKnown;
    var c := Combined(a, key);
    forall i | 0 <= i < |a|
      ensures Combined(MovedLast(a, i), key) == c && Combined(MovedFirst(a, i), key) == c
    {
      MovedArePermuted(a, i);
    }
    forall i | 0 <= i < |a|
      ensures (a[i].parentPid != 0 ==> c.parentPid == a[i].parentPid)
      ensures (a[i].processSequenceNumber != 0 ==> c.processSequenceNumber == a[i].processSequenceNumber)
      ensures (a[i].image != "" ==> c.image == a[i].image)
      ensures (a[i].commandLine != "" ==> c.commandLine == a[i].commandLine)
      ensures (a[i].userSid != "" ==> c.userSid == a[i].userSid)
      ensures (a[i].integritySid != "" ==> c.integritySid == a[i].integritySid)
      ensures a[i].startTime == c.startTime
    {
      LastWins(a, i, key);
      assert MovedFirst(a, i)[0] == a[i];
    }
  }

  /** Registrations of a new lifetime end in the same store and answer with the same one key in every order,
      exactly when they agree on what they know. */
  lemma RegistrationConfluence(s: Store, a: seq<ProcessContext>, pid: nat, ticks: nat)
    requires Invariant(s) && s.nextKey + 1 < U64
    requires a != [] && OfLifetime(a, pid, ticks)
    requires HolderOf(s.contexts, pid, ticks).None?
    ensures Agree(a) <==> forall b :: Permuted(a, b) ==> RegisterAll(s, b) == RegisterAll(s, a)
  {
    hide Combined;
    forall b | Permuted(a, b) ensures b != [] && OfLifetime(b, pid, ticks) {
      var _ := PermutedLifetime(a, b, pid, ticks);
    }
    RegisterAllInserts(s, a, pid, ticks);
    if Agree(a) {
      forall b | Permuted(a, b) ensures RegisterAll(s, b) == RegisterAll(s, a) {
        SameCombined(a, b, s.nextKey, pid, ticks);
        RegisterAllInserts(s, b, pid, ticks);
        assert RegisterAll(s, b).1 == RegisterAll(s, a).1;
      }
    }
    if forall b :: Permuted(a, b) ==> RegisterAll(s, b) == RegisterAll(s, a) {
      forall b | b != [] && Permuted(a, b) ensures Combined(b, s.nextKey) == Combined(a, s.nextKey) {
        RegisterAllInserts(s, b, pid, ticks);
        assert RegisterAll(s, b).0.contexts[s.nextKey] == RegisterAll(s, a).0.contexts[s.nextKey];
      }
      OrderNeedsAgreement(a, s.nextKey);
    }
  }

  // ---------------------------------------------------------------------------------------------
  // A lifetime the store knows already.

  /** One registration merged in after the other. */
  function MergeAll(known: ProcessContext, cs: seq<ProcessContext>): ProcessContext {
    if cs == [] then known else Merge(MergeAll(known, cs[..|cs| - 1]), cs[|cs| - 1])
  }

  function Either<T(==)>(value: T, otherwise: T, empty: T): T {
    if value != empty then value else otherwise
  }

  /** Each field gets the last known value, if any registration knows one; the start time stays. */
  lemma {:induction false} MergedFields(known: ProcessContext, cs: seq<ProcessContext>)
    ensures MergeAll(known, cs) == known.(
              parentPid := Either(LastKnown(Parents(cs), 0), known.parentPid, 0),
              processSequenceNumber := Either(LastKnown(Sequences(cs), 0), known.processSequenceNumber, 0),
              image := Either(LastKnown(Images(cs), ""), known.image, ""),
              commandLine := Either(LastKnown(CommandLines(cs), ""), known.commandLine, ""),
              userSid := Either(LastKnown(UserSids(cs), ""), known.userSid, ""),
              integritySid := Either(LastKnown(IntegritySids(cs), ""), known.integritySid, ""))
  {
    if cs != [] {
      MergedFields(known, cs[..|cs| - 1]);
      FrontsOf(cs);
    }
  }

  lemma HolderStays(contexts: Contexts, k: nat, c: ProcessContext, pid: nat, ticks: nat)
    requires UniqueIdentity(contexts) && k in contexts && SameLifetime(contexts[k], pid, ticks)
    requires SameLifetime(c, pid, ticks)
    ensures HolderOf(contexts[k := c], pid, ticks) == Some(k)
  {
    HolderFound(contexts[k := c], pid, ticks, k);
  }

  lemma MergedLifetime(known: ProcessContext, cs: seq<ProcessContext>)
    ensures SameLifetime(MergeAll(known, cs), known.pid, known.createTimeTicks)
  {
    MergedFields(known, cs);
  }

  /** Registrations of a known lifetime are merged into it, and none of them inserts. */
  lemma {:induction false} RegisterAllMerges(s: Store, cs: seq<ProcessContext>, pid: nat, ticks: nat, k: nat)
    requires Invariant(s) && OfLifetime(cs, pid, ticks)
    requires k in s.contexts && SameLifetime(s.contexts[k], pid, ticks)
    ensures var (t, answers) := RegisterAll(s, cs);
            && t == s.(contexts := s.contexts[k := MergeAll(s.contexts[k], cs)])
            && |answers| == |cs| && forall i :: 0 <= i < |cs| ==> answers[i] == Some(Registration(k, false))
  {
    hide Invariant;
    hide Blank;
    if cs == [] {
      assert s.contexts[k := s.contexts[k]] == s.contexts;
    } else {
      var n := |cs| - 1;
      var known := MergeAll(s.contexts[k], cs[..n]);
      RegisterAllMerges(s, cs[..n], pid, ticks, k);
      MergedLifetime(s.contexts[k], cs[..n]);
      HolderStays(s.contexts, k, known, pid, ticks) by { UniqueOf(s); }
      assert s.contexts[k := known][k := Merge(known, cs[n])] == s.contexts[k := Merge(known, cs[n])];
    }
  }

  lemma UniqueOf(s: Store)
    requires Invariant(s)
    ensures UniqueIdentity(s.contexts)
  {
  }

  lemma MergedLastWins(known: ProcessContext, a: seq<ProcessContext>, i: nat)
    requires i < |a|
    ensures var c := MergeAll(known, MovedLast(a, i));
            && (a[i].parentPid != 0 ==> c.parentPid == a[i].parentPid)
            && (a[i].processSequenceNumber != 0 ==> c.processSequenceNumber == a[i].processSequenceNumber)
            && (a[i].image != "" ==> c.image == a[i].image)
            && (a[i].commandLine != "" ==> c.commandLine == a[i].commandLine)
            && (a[i].userSid != "" ==> c.userSid == a[i].userSid)
            && (a[i].integritySid != "" ==> c.integritySid == a[i].integritySid)
  {
  }

  lemma SameMerged(known: ProcessContext, a: seq<ProcessContext>, b: seq<ProcessContext>)
    requires FieldsAgree(a) && Permuted(a, b)
    ensures MergeAll(known, a) == MergeAll(known, b)
  {
    hide LastKnown;
    hide MergeAll;
    PermutedValues(a, b);
    PermutedValues(b, a);
    SameField(Parents(a), Parents(b), 0);
    SameField(Sequences(a), Sequences(b), 0);
    SameField(Images(a), Images(b), "");
    SameField(CommandLines(a), CommandLines(b), "");
    SameField(UserSids(a), UserSids(b), "");
    SameField(IntegritySids(a), IntegritySids(b), "");
    MergedFields(known, a);
    MergedFields(known, b);
  }

  lemma MergingNeedsAgreement(known: ProcessContext, a: seq<ProcessContext>)
    requires forall b :: Permuted(a, b) ==> MergeAll(known, b) == MergeAll(known, a)
    ensures FieldsAgree(a)
  {
    hide MergeAll;
    var c := MergeAll(known, a);
    forall i | 0 <= i < |a|
      ensures (a[i].parentPid != 0 ==> c.parentPid == a[i].parentPid)
      ensures (a[i].processSequenceNumber != 0 ==> c.processSequenceNumber == a[i].processSequenceNumber)
      ensures (a[i].image != "" ==> c.image == a[i].image)
      ensures (a[i].commandLine != "" ==> c.commandLine == a[i].commandLine)
      ensures (a[i].userSid != "" ==> c.userSid == a[i].userSid)
      ensures (a[i].integritySid != "" ==> c.integritySid == a[i].integritySid)
    {
      MovedArePermuted(a, i);
      MergedLastWins(known, a, i);
    }
  }

  /** Of a lifetime the store knows, registrations end in the same store in every order exactly when they agree
      among themselves wherever two know a field; their start times do not matter. */
  lemma KnownLifetimeConfluence(s: Store, a: seq<ProcessContext>, pid: nat, ticks: nat, k: nat)
    requires Invariant(s) && OfLifetime(a, pid, ticks)
    requires k in s.contexts && SameLifetime(s.contexts[k], pid, ticks)
    ensures FieldsAgree(a) <==> forall b :: Permuted(a, b) ==> RegisterAll(s, b) == RegisterAll(s, a)
  {
    hide MergeAll;
    hide FieldsAgree;
    hide Invariant;
    hide RegisterAll;
    RegisterAllMerges(s, a, pid, ticks, k);
    var known := s.contexts[k];
    forall b | Permuted(a, b)
      ensures RegisterAll(s, b) == RegisterAll(s, a) <==> MergeAll(known, b) == MergeAll(known, a)
    {
      PermutedOfLifetime(a, b, pid, ticks);
      RegisterAllMerges(s, b, pid, ticks, k);
      assert RegisterAll(s, b).1 == RegisterAll(s, a).1;
      assert RegisterAll(s, b).0.contexts[k] == MergeAll(known, b)
        && RegisterAll(s, a).0.contexts[k] == MergeAll(known, a);
    }
    if FieldsAgree(a) {
      forall b | Permuted(a, b) ensures MergeAll(known, b) == MergeAll(known, a) {
        SameMerged(known, a, b);
      }
    }
    if forall b :: Permuted(a, b) ==> RegisterAll(s, b) == RegisterAll(s, a) {
      MergingNeedsAgreement(known, a);
    }
  }

  lemma PermutedOfLifetime(a: seq<ProcessContext>, b: seq<ProcessContext>, pid: nat, ticks: nat)
    requires Permuted(a, b) && OfLifetime(a, pid, ticks)
    ensures |a| == |b| && OfLifetime(b, pid, ticks)
  {
    PermutedValues(b, a);
  }

  // ---------------------------------------------------------------------------------------------
  // The registrations the providers make.

  /** A Start, Rundown or bootstrap that is accepted. */
  datatype Announcement = Announcement(kind: Kind, event: ProcessEvent) {
    predicate Accepted() {
      && event.inJob
      && (kind.Bootstrap? || ((kind.Start? || kind.Rundown?) && event.processId.Some?
        && event.createTime.GetOr(0) != 0))
    }

    function Context(): ProcessContext {
      if kind.Bootstrap? then BootstrapContext(event) else StartedContext(event)
    }
  }

  function Announced(announcements: seq<Announcement>): (cs: seq<ProcessContext>)
    ensures |cs| == |announcements|
  {
    seq(|announcements|, i requires 0 <= i < |announcements| => announcements[i].Context())
  }

  predicate AllAccepted(announcements: seq<Announcement>) {
    forall i :: 0 <= i < |announcements| ==> announcements[i].Accepted()
  }

  /** The handlers' steps, one after the other. */
  ghost function Handled(s: Store, announcements: seq<Announcement>): (t: Store)
    requires s.nextKey < U64
    ensures t.nextKey < U64
  {
    if announcements == [] then s
    else
      var last := announcements[|announcements| - 1];
      Step(Handled(s, announcements[..|announcements| - 1]), last.kind, last.event)
  }

  /** Handling accepted announcements is registering their contexts. */
  lemma {:induction false} HandledRegisters(s: Store, announcements: seq<Announcement>)
    requires s.nextKey < U64 && AllAccepted(announcements)
    ensures Handled(s, announcements) == RegisterAll(s, Announced(announcements)).0
  {
    if announcements != [] {
      var n := |announcements| - 1;
      HandledRegisters(s, announcements[..n]);
      assert Announced(announcements)[..n] == Announced(announcements[..n]);
      hide Registered;
    }
  }

  /** The start time a provider registers is determined by the creation time. */
  lemma StartTimeIsDetermined(a: Announcement)
    requires a.Context().createTimeTicks != 0
    ensures a.Context().startTime == FromFileTime(a.Context().createTimeTicks) && Blank(a.Context())
  {
  }

  /** So the providers' registrations of a new lifetime commute exactly when they agree wherever two know a field. */
  lemma ProviderConfluence(s: Store, announcements: seq<Announcement>, pid: nat, ticks: nat)
    requires Invariant(s) && s.nextKey + 1 < U64 && HolderOf(s.contexts, pid, ticks).None?
    requires announcements != [] && pid != 0 && ticks != 0
    requires forall i :: 0 <= i < |announcements| ==> SameLifetime(announcements[i].Context(), pid, ticks)
    ensures var a := Announced(announcements);
            FieldsAgree(a) <==> forall b :: Permuted(a, b) ==> RegisterAll(s, b) == RegisterAll(s, a)
  {
    hide FieldsAgree;
    hide Invariant;
    hide RegisterAll;
    var a := Announced(announcements);
    forall i | 0 <= i < |a| ensures a[i].startTime == FromFileTime(ticks) && SameLifetime(a[i], pid, ticks)
      && Blank(a[i]) {
      assert SameLifetime(announcements[i].Context(), pid, ticks);
      StartTimeIsDetermined(announcements[i]);
    }
    hide Announcement.Context;
    RegistrationConfluence(s, a, pid, ticks);
  }
}
