/** The environment block handed to the child process. */
module ChildEnvironment {
  import opened Prelude

  type Entry = seq<Wide>

  /** The entries with a NUL behind each, and one more NUL. */
  function Encode(entries: seq<Entry>): seq<Wide> {
    if entries == [] then [0] else entries[0] + [0] + Encode(entries[1..])
  }

  /** wcslen: the number of units before the first NUL. */
  function Length(block: seq<Wide>): (n: nat)
    ensures n <= |block| && 0 !in block[..n]
    ensures n < |block| ==> block[n] == 0
  {
    if block == [] || block[0] == 0 then 0 else
      var n := Length(block[1..]);
      assert block[..n + 1] == [block[0]] + block[1..][..n];
      n + 1
  }

  /** Stepping from string to string up to the empty one. */
  function Decode(block: seq<Wide>): (entries: seq<Entry>)
    decreases |block|
  {
    var n := Length(block);
    if n == 0 then []
    else [block[..n]] + Decode(if n < |block| then block[n + 1..] else [])
  }

  predicate Plain(e: Entry) {
    e != [] && 0 !in e
  }

  lemma {:induction false} DecodedArePlain(block: seq<Wide>)
    ensures forall e :: e in Decode(block) ==> Plain(e)
    decreases |block|
  {
    var n := Length(block);
    if n > 0 {
      DecodedArePlain(if n < |block| then block[n + 1..] else []);
    }
  }

  lemma {:induction false} LengthOf(e: Entry, rest: seq<Wide>)
    requires 0 !in e
    ensures Length(e + [0] + rest) == |e|
  {
    if e != [] {
      assert (e + [0] + rest)[1..] == e[1..] + [0] + rest;
      assert e[0] in e;
      LengthOf(e[1..], rest);
    }
  }

  lemma DecodeFirst(e: Entry, rest: seq<Wide>)
    requires Plain(e)
    ensures Decode(e + [0] + rest) == [e] + Decode(rest)
  {
    LengthOf(e, rest);
    assert (e + [0] + rest)[..|e|] == e && (e + [0] + rest)[|e| + 1..] == rest;
  }

  lemma {:induction false} DecodePlain(entries: seq<Entry>)
    requires forall e :: e in entries ==> Plain(e)
    ensures Decode(Encode(entries)) == entries
  {
    if entries != [] {
      assert entries[0] in entries;
      DecodePlain(entries[1..]);
      DecodeFirst(entries[0], Encode(entries[1..]));
      hide Decode;
    }
  }

  /** Decoding gives the entries back exactly when none is empty and none contains a NUL. */
  lemma DecodeEncoded(entries: seq<Entry>)
    ensures Decode(Encode(entries)) == entries <==> forall e :: e in entries ==> Plain(e)
  {
    hide Decode;
    hide Encode;
    DecodedArePlain(Encode(entries));
    if forall e :: e in entries ==> Plain(e) {
      DecodePlain(entries);
    }
  }

  // ---------------------------------------------------------------------------------------------

  /** "CODEX_HOME=" */
  const PREFIX: Entry := [67, 79, 68, 69, 88, 95, 72, 79, 77, 69, 61]

  /** Any upper- or lower-case spelling of the variable. */
  predicate IsCodexHome(fold: Wide -> Wide, e: Entry) {
    |e| >= |PREFIX| && forall i :: 0 <= i < |PREFIX| ==> fold(e[i]) == fold(PREFIX[i])
  }

  function Units(text: string): (units: Entry)
    ensures |units| == |text|
  {
    seq(|text|, i requires 0 <= i < |text| => text[i] as int % U16)
  }

  const NAME := Units("CODEX_HOME=")

  /** The entry sets the variable, however its letters are written. */
  predicate SetsCodexHome(fold: Wide -> Wide, e: Entry) {
    |e| >= |NAME| && Folded(fold, e[..|NAME|]) == Folded(fold, NAME)
  }

  function Folded(fold: Wide -> Wide, units: Entry): (folded: Entry)
    ensures |folded| == |units|
  {
    seq(|units|, i requires 0 <= i < |units| => fold(units[i]))
  }

  lemma PrefixIsName()
    ensures PREFIX == NAME
  {
  }

  lemma SetsIsPrefix(fold: Wide -> Wide, e: Entry)
    ensures IsCodexHome(fold, e) <==> SetsCodexHome(fold, e)
  {
    PrefixIsName();
    if |e| >= |NAME| {
      assert forall i :: 0 <= i < |NAME| ==>
               Folded(fold, e[..|NAME|])[i] == fold(e[i]) && Folded(fold, NAME)[i] == fold(NAME[i]);
    }
  }

  function Others(fold: Wide -> Wide, entries: seq<Entry>): seq<Entry> {
    if entries == [] then []
    else Others(fold, entries[..|entries| - 1]) +
         if IsCodexHome(fold, entries[|entries| - 1]) then [] else [entries[|entries| - 1]]
  }

  /** _wcsicmp(a, b) < 0; both strings end at their first NUL. */
  predicate Less(fold: Wide -> Wide, a: Entry, b: Entry) {
    if b == [] || b[0] == 0 then false
    else if a == [] || a[0] == 0 then true
    else fold(a[0]) < fold(b[0]) || (fold(a[0]) == fold(b[0]) && Less(fold, a[1..], b[1..]))
  }

  /** Up to case, a and b agree in their first k units; then a ends and b does not, or a's unit is the smaller one.
      A NUL ends both. */
  predicate PrecedesAt(fold: Wide -> Wide, a: Entry, b: Entry, k: nat) {
    && k <= Length(a) && k < Length(b)
    && (forall i :: 0 <= i < k ==> fold(a[i]) == fold(b[i]))
    && (k == Length(a) || fold(a[k]) < fold(b[k]))
  }

  predicate Precedes(fold: Wide -> Wide, a: Entry, b: Entry) {
    exists k :: 0 <= k < |b| && PrecedesAt(fold, a, b, k)
  }

  /** The comparison is that by the first difference up to case. */
  lemma {:induction false} LessIsPrecedes(fold: Wide -> Wide, a: Entry, b: Entry)
    ensures Less(fold, a, b) <==> Precedes(fold, a, b)
  {
    if a != [] && a[0] != 0 && b != [] && b[0] != 0 && fold(a[0]) == fold(b[0]) {
      LessIsPrecedes(fold, a[1..], b[1..]);
      assert !PrecedesAt(fold, a, b, 0);
      forall k | 0 <= k < |b[1..]|
        ensures PrecedesAt(fold, a[1..], b[1..], k) <==> PrecedesAt(fold, a, b, k + 1)
      {
        PrecedesFurther(fold, a, b, k);
      }
      hide PrecedesAt;
      assert forall k :: 0 < k < |b| && PrecedesAt(fold, a, b, k) ==> PrecedesAt(fold, a[1..], b[1..], k - 1) by {
        forall k | 0 < k < |b| && PrecedesAt(fold, a, b, k) ensures PrecedesAt(fold, a[1..], b[1..], k - 1) {
          PrecedesFurther(fold, a, b, k - 1);
        }
      }
    } else if Less(fold, a, b) {
      assert PrecedesAt(fold, a, b, 0);
    }
  }

  lemma PrecedesFurther(fold: Wide -> Wide, a: Entry, b: Entry, k: nat)
    requires a != [] && a[0] != 0 && b != [] && b[0] != 0 && fold(a[0]) == fold(b[0])
    ensures PrecedesAt(fold, a[1..], b[1..], k) <==> PrecedesAt(fold, a, b, k + 1)
  {
    assert Length(a) == Length(a[1..]) + 1 && Length(b) == Length(b[1..]) + 1;
    hide Length;
    assert forall i :: 0 < i < |a| ==> a[i] == a[1..][i - 1];
    assert forall i :: 0 < i < |b| ==> b[i] == b[1..][i - 1];
  }

  predicate Sorted(fold: Wide -> Wide, entries: seq<Entry>) {
    forall i, j :: 0 <= i < j < |entries| ==> !Less(fold, entries[j], entries[i])
  }

  /** No entry precedes one in front of it. */
  predicate InOrder(fold: Wide -> Wide, entries: seq<Entry>) {
    forall i, j :: 0 <= i < j < |entries| ==> !Precedes(fold, entries[j], entries[i])
  }

  lemma SortedIsInOrder(fold: Wide -> Wide, entries: seq<Entry>)
    ensures Sorted(fold, entries) <==> InOrder(fold, entries)
  {
    hide Less;
    hide Precedes;
    forall i, j | 0 <= i < j < |entries|
      ensures Less(fold, entries[j], entries[i]) <==> Precedes(fold, entries[j], entries[i])
    {
      LessIsPrecedes(fold, entries[j], entries[i]);
    }
  }

  // What std::sort asks of its comparison: a strict weak ordering, also of entries cut short by a NUL inside.

  lemma {:induction false} LessIsIrreflexive(fold: Wide -> Wide, a: Entry)
    ensures !Less(fold, a, a)
  {
    if a != [] && a[0] != 0 {
      LessIsIrreflexive(fold, a[1..]);
    }
  }

  lemma {:induction false} LessIsTransitive(fold: Wide -> Wide, a: Entry, b: Entry, c: Entry)
    requires Less(fold, a, b) && Less(fold, b, c)
    ensures Less(fold, a, c)
  {
    if a != [] && a[0] != 0 && fold(a[0]) == fold(b[0]) == fold(c[0]) {
      LessIsTransitive(fold, a[1..], b[1..], c[1..]);
    }
  }

  predicate Equivalent(fold: Wide -> Wide, a: Entry, b: Entry) {
    !Less(fold, a, b) && !Less(fold, b, a)
  }

  lemma {:induction false} EquivalenceIsTransitive(fold: Wide -> Wide, a: Entry, b: Entry, c: Entry)
    requires Equivalent(fold, a, b) && Equivalent(fold, b, c)
    ensures Equivalent(fold, a, c)
  {
    if a != [] && a[0] != 0 && c != [] && c[0] != 0 {
      EquivalenceIsTransitive(fold, a[1..], b[1..], c[1..]);
    }
  }

  /** Inserts an entry behind those it is not less than. */
  method Insert(fold: Wide -> Wide, entries: seq<Entry>, e: Entry) returns (r: seq<Entry>)
    requires Sorted(fold, entries)
    ensures Sorted(fold, r) && multiset(r) == multiset(entries) + multiset{e}
  {
    hide Less;
    var i := 0;
    while i < |entries| && !Less(fold, e, entries[i])
      invariant i <= |entries| && forall j :: 0 <= j < i ==> !Less(fold, e, entries[j])
    {
      i := i + 1;
    }
    r := entries[..i] + [e] + entries[i..];
    assert entries == entries[..i] + entries[i..];
    forall k | i <= k < |entries| ensures !Less(fold, entries[k], e) {
      if Less(fold, entries[k], e) {
        LessIsTransitive(fold, entries[k], e, entries[i]);
        LessIsIrreflexive(fold, entries[i]);
      }
    }
  }

  /** Any sorting of the entries; std::sort promises no more of entries that compare equal. */
  method Sort(fold: Wide -> Wide, entries: seq<Entry>) returns (r: seq<Entry>)
    ensures Sorted(fold, r) && multiset(r) == multiset(entries) && |r| == |entries|
  {
    hide Less;
    r := [];
    for i := 0 to |entries|
      invariant Sorted(fold, r) && multiset(r) == multiset(entries[..i])
    {
      assert entries[..i + 1] == entries[..i] + [entries[i]];
      r := Insert(fold, r, entries[i]);
    }
    assert entries[..|entries|] == entries;
    assert |multiset(r)| == |multiset(entries)|;
  }

  /** The child's entries before sorting. */
  function Collected(fold: Wide -> Wide, environment: seq<Wide>, codexHome: Entry): seq<Entry> {
    Others(fold, Decode(environment)) + [PREFIX + codexHome]
  }

  /** Exactly the CODEX_HOME variants are left out, every other entry keeps its multiplicity. */
  lemma {:induction false} OthersCount(fold: Wide -> Wide, entries: seq<Entry>, e: Entry)
    ensures multiset(Others(fold, entries))[e] == if SetsCodexHome(fold, e) then 0 else multiset(entries)[e]
  {
    SetsIsPrefix(fold, e);
    if entries != [] {
      var n := |entries| - 1;
      OthersCount(fold, entries[..n], e);
      assert entries == entries[..n] + [entries[n]];
    }
  }

  lemma DecodeStep(current: seq<Wide>, seen: seq<Entry>)
    requires current != [] && current[0] != 0
    ensures var n := Length(current);
            && n > 0
            && seen + Decode(current) == seen + [current[..n]] + Decode(if n < |current| then current[n + 1..] else [])
  {
  }

  lemma OthersStep(fold: Wide -> Wide, seen: seq<Entry>, entry: Entry)
    ensures Others(fold, seen + [entry]) == Others(fold, seen) + if IsCodexHome(fold, entry) then [] else [entry]
  {
    assert (seen + [entry])[..|seen|] == seen;
  }

  method CollectEntries(fold: Wide -> Wide, environment: seq<Wide>, codexHome: Entry) returns (entries: seq<Entry>)
    ensures entries == Collected(fold, environment, codexHome) && entries != []
  {
    hide IsCodexHome;
    entries := [];
    ghost var seen: seq<Entry> := [];
    var current := environment;
    while current != [] && current[0] != 0
      invariant Decode(environment) == seen + Decode(current)
      invariant entries == Others(fold, seen)
      decreases |current|
    {
      var n := Length(current);
      var entry := current[..n];
      DecodeStep(current, seen);
      OthersStep(fold, seen, entry);
      if !IsCodexHome(fold, entry) {
        entries := entries + [entry];
      }
      seen := seen + [entry];
      hide Decode;
      current := if n < |current| then current[n + 1..] else [];
    }
    assert Decode(current) == [];
    assert Decode(environment) == seen;
    entries := entries + [PREFIX + codexHome];
  }

  function EncodedSize(entries: seq<Entry>): nat {
    if entries == [] then 1 else |entries[0]| + 1 + EncodedSize(entries[1..])
  }

  lemma {:induction false} EncodedSizeIsSize(entries: seq<Entry>)
    ensures |Encode(entries)| == EncodedSize(entries)
  {
    if entries != [] {
      EncodedSizeIsSize(entries[1..]);
    }
  }

  lemma {:induction false} EncodeSnoc(entries: seq<Entry>, e: Entry)
    ensures Encode(entries + [e]) == Encode(entries)[..|Encode(entries)| - 1] + e + [0] + [0]
    ensures EncodedSize(entries + [e]) == EncodedSize(entries) + |e| + 1
    ensures |Encode(entries)| > 0 && Encode(entries)[|Encode(entries)| - 1] == 0
  {
    if entries == [] {
      assert [e] == [e] + [] && ([] + [e])[1..] == [];
      assert Encode([e]) == e + [0] + Encode([]);
    } else {
      assert (entries + [e])[1..] == entries[1..] + [e];
      EncodeSnoc(entries[1..], e);
    }
  }

  lemma EndsInNuls(entries: seq<Entry>)
    requires entries != []
    ensures var block, n := Encode(entries), |Encode(entries)|; n >= 2 && block[n - 2] == block[n - 1] == 0
  {
    var front, e := entries[..|entries| - 1], entries[|entries| - 1];
    assert entries == front + [e];
    EncodeSnoc(front, e);
  }

  /** The child has the new CODEX_HOME entry once, no other variant of it, and every other entry as often as the
      parent. */
  ghost predicate OneCodexHome(fold: Wide -> Wide, parent: seq<Entry>, child: seq<Entry>, home: Entry) {
    forall e: Entry :: multiset(child)[e] ==
      if e == home then 1 else if SetsCodexHome(fold, e) then 0 else multiset(parent)[e]
  }

  lemma HomeIsCodexHome(fold: Wide -> Wide, codexHome: Entry)
    ensures SetsCodexHome(fold, NAME + codexHome)
  {
  }

  lemma CollectionCount(fold: Wide -> Wide, environment: seq<Wide>, codexHome: Entry, sorted: seq<Entry>)
    requires multiset(sorted) == multiset(Collected(fold, environment, codexHome))
    ensures OneCodexHome(fold, Decode(environment), sorted, NAME + codexHome)
  {
    hide Others;
    hide Decode;
    hide IsCodexHome;
    hide SetsCodexHome;
    PrefixIsName();
    var home := NAME + codexHome;
    HomeIsCodexHome(fold, codexHome);
    forall e: Entry
      ensures multiset(sorted)[e] == if e == home then 1 else if SetsCodexHome(fold, e) then 0
          else multiset(Decode(environment))[e]
    {
      OthersCount(fold, Decode(environment), e);
    }
  }

  lemma {:induction false} OthersArePart(fold: Wide -> Wide, entries: seq<Entry>)
    ensures forall e :: e in Others(fold, entries) ==> e in entries
  {
    if entries != [] {
      OthersArePart(fold, entries[..|entries| - 1]);
    }
  }

  /** No decoded entry contains a NUL. */
  lemma HomeIsLost(fold: Wide -> Wide, environment: seq<Wide>, block: seq<Wide>, codexHome: Entry)
    requires 0 in codexHome
    ensures !OneCodexHome(fold, Decode(environment), Decode(block), NAME + codexHome)
  {
    hide Decode;
    hide SetsCodexHome;
    var home := NAME + codexHome;
    DecodedArePlain(block);
    assert 0 in home by {
      var k :| 0 <= k < |codexHome| && codexHome[k] == 0;
      assert home[|NAME| + k] == 0;
    }
    assert home !in Decode(block);
    assert home !in multiset(Decode(block));
  }

  lemma PlainCollection(fold: Wide -> Wide, environment: seq<Wide>, codexHome: Entry, sorted: seq<Entry>)
    requires multiset(sorted) == multiset(Collected(fold, environment, codexHome))
    ensures (forall e :: e in sorted ==> Plain(e)) <==> 0 !in codexHome
  {
    var c := Collected(fold, environment, codexHome);
    DecodedArePlain(environment);
    OthersArePart(fold, Decode(environment));
    forall e ensures e in sorted <==> e in c {
      assert e in sorted <==> e in multiset(sorted);
      assert e in c <==> e in multiset(c);
    }
    var home := PREFIX + codexHome;
    assert c[|c| - 1] == home;
    assert Plain(home) <==> 0 !in codexHome by {
      assert 0 !in PREFIX;
      assert forall x :: x in home <==> x in PREFIX || x in codexHome;
    }
  }

  /** BuildChildEnvironment. The block has the size computed beforehand; unless the new value contains a NUL, decoding
      it gives a list in case-insensitive order with the new CODEX_HOME once, no other variant of it, and every other
      entry of the parent as often as before - and if it does contain one, decoding gives something else. */
  method BuildChildEnvironment(fold: Wide -> Wide, environment: seq<Wide>, codexHome: Entry)
    returns (block: seq<Wide>, required: nat)
    ensures |block| == required >= 2 && block[required - 2] == block[required - 1] == 0
    ensures 0 !in codexHome ==> InOrder(fold, Decode(block))
    ensures OneCodexHome(fold, Decode(environment), Decode(block), NAME + codexHome) <==> 0 !in codexHome
  {
    hide OneCodexHome;
    hide IsCodexHome;
    hide Sorted;
    hide InOrder;
    hide Collected;
    hide Decode;
    var entries := CollectEntries(fold, environment, codexHome);
    entries := Sort(fold, entries);
    required := 1;
    for i := 0 to |entries|
      invariant required == EncodedSize(entries[..i])
    {
      EncodeSnoc(entries[..i], entries[i]);
      assert entries[..i + 1] == entries[..i] + [entries[i]];
      required := required + |entries[i]| + 1;
    }
    assert entries[..|entries|] == entries;
    block := Concatenate(entries);
    EncodedSizeIsSize(entries);
    DecodeEncoded(entries);
    PlainCollection(fold, environment, codexHome, entries);
    CollectionCount(fold, environment, codexHome, entries);
    SortedIsInOrder(fold, entries);
    EndsInNuls(entries);
    if 0 in codexHome {
      HomeIsLost(fold, environment, block, codexHome);
    }
  }

  /** The block's second half: every entry with its NUL, then one more. */
  method Concatenate(entries: seq<Entry>) returns (block: seq<Wide>)
    ensures block == Encode(entries)
  {
    block := [];
    for i := 0 to |entries|
      invariant block + [0] == Encode(entries[..i])
    {
      EncodeSnoc(entries[..i], entries[i]);
      assert entries[..i + 1] == entries[..i] + [entries[i]];
      assert Encode(entries[..i])[..|Encode(entries[..i])| - 1] == block;
      block := block + entries[i];
      block := block + [0];
    }
    block := block + [0];
    assert entries[..|entries|] == entries;
  }
}
