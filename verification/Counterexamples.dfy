/** Inputs at which the code falls short of its intention, one for each exact condition proved elsewhere.
    The snapshot that Cleanup forgets is in SandboxRunner.ForgottenSnapshot. */
module Counterexamples {
  import opened Prelude
  import opened SizeProvider
  import opened Parser
  import opened RecordBuilder
  import opened RoundTrip
  import opened PackedRecords
  import opened ProcessStore
  import Lifetimes
  import RegistrationOrder
  import ChildEnvironment

  // ---------------------------------------------------------------------------------------------
  // Records.

  const WIDE_PROPERTY := PropertyInfo("Path", UnicodeString, StringOut, 0, false, false)

  function OneText(text: seq<Wide>): seq<Assignment> {
    [Assignment("Path", Text(text))]
  }

  const NO_SIZE: string -> nat := name => 0

  lemma OneTextFits(text: seq<Wide>)
    ensures DistinctNames([WIDE_PROPERTY]) && AllFit(OneText(text), [WIDE_PROPERTY], false)
    ensures Values(OneText(text), [WIDE_PROPERTY]) == [Text(text)]
  {
  }

  /** A record of one wide string packs into its bytes, trimmed or not. */
  lemma OneTextPacks(text: seq<Wide>, trim: bool)
    ensures PackSpec([WIDE_PROPERTY], Thunks(OneText(text)), trim) ==
            Ok(Packed(if trim then EncodeWide(text) else EncodeWide(text) + [0, 0], []))
  {
    var props, thunks, f := [WIDE_PROPERTY], Thunks(OneText(text)), EncodeWide(text) + [0, 0];
    OneThunk(text);
    hide PackField;
    assert props[..0] == [] && props[0] == WIDE_PROPERTY;
    assert PackDraft([], thunks) == Ok(Draft([], [], 0));
    assert PackDraft(props, thunks).value.bytes == f;
    assert f[..2 * |text|] == EncodeWide(text);
  }

  lemma OneThunk(text: seq<Wide>)
    ensures PackField(WIDE_PROPERTY, Thunks(OneText(text))) == Ok((EncodeWide(text) + [0, 0], true))
  {
    var s := OneText(text);
    var thunk := ThunkOf("Path", Text(text));
    assert s[1..] == [];
    assert Thunks(s) == [thunk];
    assert thunk.bytes == EncodeWide(text) + [0, 0];
    assert FindThunk([thunk], "Path") == Some(thunk);
  }

  lemma OneTextSurvives(text: seq<Wide>, trim: bool, bytes: seq<Byte>)
    requires PackSpec([WIDE_PROPERTY], Thunks(OneText(text)), trim) == Ok(Packed(bytes, []))
    ensures var r := Synthesize(bytes, 1, false, [WIDE_PROPERTY], NO_SIZE);
            AllReadBack(r, [Text(text)]) <==> Survives(r, WIDE_PROPERTY, Text(text), 0)
  {
    hide PackSpec;
    hide AllReadBack;
    hide Survives;
    hide AllFit;
    hide DistinctNames;
    hide Thunks;
    hide Values;
    OneTextFits(text);
    FittingRecordReadsBack(OneText(text), [WIDE_PROPERTY], trim, 1, false, NO_SIZE);
    NothingBefore([Text(text)]);
    hide Begin;
    hide Value.Content;
  }

  /** A lone empty string, trimmed: the record has no byte, so no address, and the property is "not found". */
  lemma LoneEmptyStringIsNotFound()
    ensures DistinctNames([WIDE_PROPERTY]) && AllFit(OneText([]), [WIDE_PROPERTY], false)
    ensures PackSpec([WIDE_PROPERTY], Thunks(OneText([])), true) == Ok(Packed([], []))
    ensures ReadAt(Synthesize([], 1, false, [WIDE_PROPERTY], NO_SIZE), 0, Text([])) == Err(DoesNotExist)
    ensures !AllReadBack(Synthesize([], 1, false, [WIDE_PROPERTY], NO_SIZE), [Text([])])
  {
    OneTextFits([]);
    OneTextPacks([], true);
    assert EncodeWide([]) == [];
    OneTextSurvives([], true, []);
    hide PackSpec;
    hide AllReadBack;
    hide AllFit;
    hide Thunks;
    EmptyIsUnaddressed();
  }

  lemma EmptyIsUnaddressed()
    ensures var r := Synthesize([], 1, false, [WIDE_PROPERTY], NO_SIZE);
            ReadAt(r, 0, Text([])) == Err(DoesNotExist) && !Survives(r, WIDE_PROPERTY, Text([]), 0)
  {
    var r := Synthesize([], 1, false, [WIDE_PROPERTY], NO_SIZE);
    assert r.data == [] && r.userData == 0;
    WalkStarts(r);
    Unaddressed(r, 0);
  }

  const CUT_TEXT: seq<Wide> := [97, 0, 98]
  const CUT_BYTES: seq<Byte> := [97, 0, 0, 0, 98, 0, 0, 0]

  /** "a", NUL, "b" is read back as "a". */
  lemma NulCutsString()
    ensures DistinctNames([WIDE_PROPERTY]) && AllFit(OneText(CUT_TEXT), [WIDE_PROPERTY], false)
    ensures PackSpec([WIDE_PROPERTY], Thunks(OneText(CUT_TEXT)), false) == Ok(Packed(CUT_BYTES, []))
    ensures ReadAt(Synthesize(CUT_BYTES, 1, false, [WIDE_PROPERTY], NO_SIZE), 0, Text(CUT_TEXT)) == Ok(WideText([97]))
    ensures !AllReadBack(Synthesize(CUT_BYTES, 1, false, [WIDE_PROPERTY], NO_SIZE), [Text(CUT_TEXT)])
  {
    hide PackSpec;
    hide AllReadBack;
    hide AllFit;
    hide DistinctNames;
    hide Thunks;
    hide ReadAt;
    hide Survives;
    OneTextFits(CUT_TEXT);
    CutPacks();
    OneTextSurvives(CUT_TEXT, false, CUT_BYTES);
    CutIsRead();
  }

  lemma CutPacks()
    ensures PackSpec([WIDE_PROPERTY], Thunks(OneText(CUT_TEXT)), false) == Ok(Packed(CUT_BYTES, []))
  {
    hide PackSpec;
    hide Thunks;
    OneTextPacks(CUT_TEXT, false);
    assert EncodeWide(CUT_TEXT) + [0, 0] == CUT_BYTES;
  }

  lemma CutIsRead()
    ensures var r := Synthesize(CUT_BYTES, 1, false, [WIDE_PROPERTY], NO_SIZE);
            ReadAt(r, 0, Text(CUT_TEXT)) == Ok(WideText([97])) && !Survives(r, WIDE_PROPERTY, Text(CUT_TEXT), 0)
  {
    hide ReadAt;
    assert CUT_TEXT[1] == 0;
    ReadUpToNul(Synthesize(CUT_BYTES, 1, false, [WIDE_PROPERTY], NO_SIZE));
  }

  lemma ReadUpToNul(r: EventRecord)
    requires r.Valid() && r.props == [WIDE_PROPERTY] && r.data == CUT_BYTES
    ensures ReadAt(r, 0, Text(CUT_TEXT)) == Ok(WideText([97]))
  {
    hide ParseLookup;
    hide WalkTo;
    hide StartOf;
    hide PropertySize;
    var read: seq<Wide> := [97];
    WalkStarts(r);
    SizeUpToNul(r);
    assert Text(read).Content() == [97, 0];
    assert r.data[0..4] == Text(read).Content() + [0, 0];
    ReadExactly(r, 0, Text(read), 0, [0, 0]);
  }

  lemma SizeUpToNul(r: EventRecord)
    requires r.data == CUT_BYTES
    ensures PropertySize(r, 0, WIDE_PROPERTY) == 4
  {
    assert r.data[2] == r.data[3] == 0 && r.data[0] != 0;
    assert WideExtent(r.data, 2) == 2;
    assert WideExtent(r.data, 0) == 4;
  }

  const NUMBER := PropertyInfo("Id", UInt32, OtherOut, 4, false, false)

  /** Two properties of one name: the hint decides which of them is read. */
  lemma HintDecides()
    ensures var r := EventRecord(1, [1, 0, 0, 0, 2, 0, 0, 0], false, [NUMBER, NUMBER], NO_SIZE);
            && EagerParse(r, "Id", 0, AsScalar(4)) == Ok(Bytes([1, 0, 0, 0]))
            && EagerParse(r, "Id", 1, AsScalar(4)) == Ok(Bytes([2, 0, 0, 0]))
  {
    var r := EventRecord(1, [1, 0, 0, 0, 2, 0, 0, 0], false, [NUMBER, NUMBER], NO_SIZE);
    ResolveAtHint(r.props, "Id", 0);
    ResolveAtHint(r.props, "Id", 1);
    WalkStarts(r);
    assert StartOf(r, 1) == Some(4) && StartOf(r, 2) == Some(8);
    assert r.data[0..4] == [1, 0, 0, 0] && r.data[4..8] == [2, 0, 0, 0];
  }

  function OneNumber(): seq<Assignment> {
    [Assignment("Id", Scalar(UInt32, [1, 0, 0, 0]))]
  }

  /** An unfilled property of another name in front of the number. */
  lemma NumberBehindFiller(p: PropertyInfo, n: nat)
    requires p.name != "Id" && HowManyBytesToFill(p.inType) == Some(n)
    ensures PackSpec([p, NUMBER], Thunks(OneNumber()), false) == Ok(Packed(Zeros(n) + [1, 0, 0, 0], [p.name]))
  {
    var s := OneNumber();
    var thunk, props, thunks := ThunkOf("Id", s[0].value), [p, NUMBER], Thunks(s);
    assert s[1..] == [];
    assert thunks == [thunk];
    assert thunk.bytes == [1, 0, 0, 0];
    FindAmongOne(thunk, p.name);
    FindAmongOne(thunk, "Id");
    assert PackField(p, thunks) == Ok((Zeros(n), false));
    assert PackField(NUMBER, thunks) == Ok((thunk.bytes, true));
    hide PackField;
    assert props[..1][..0] == [] && props[..1][0] == p;
    assert PackDraft(props[..1], thunks) == Ok(Draft([] + Zeros(n), [] + [p.name], 0));
    var front, none: seq<string> := [p.name], [];
    assert none + front == front;
    assert [] + Zeros(n) == Zeros(n);
    assert PackDraft(props[..1], thunks) == Ok(Draft(Zeros(n), front, 0));
    assert PackDraft(props, thunks) == Ok(Draft(Zeros(n) + thunk.bytes, front, 0));
  }

  lemma FindAmongOne(thunk: Thunk, name: string)
    ensures FindThunk([thunk], name) == if thunk.name == name then Some(thunk) else None
  {
    assert [thunk][1..] == [];
  }

  /** The filler of a blob is one byte, whatever length is declared: the number behind it is packed without error
      and lies past the end. */
  lemma ShortFillerLosesTheNext()
    ensures var props, bytes := [BlobProperty("Sid", 16), NUMBER], [0, 1, 0, 0, 0];
            && PackSpec(props, Thunks(OneNumber()), false) == Ok(Packed(bytes, ["Sid"]))
            && ReadAt(Synthesize(bytes, 1, false, props, NO_SIZE), 1, Scalar(UInt32, [1, 0, 0, 0])) == Err(PastEnd)
  {
    var props: seq<PropertyInfo>, bytes: seq<Byte> := [BlobProperty("Sid", 16), NUMBER], [0, 1, 0, 0, 0];
    NumberBehindFiller(BlobProperty("Sid", 16), 1);
    assert Zeros(1) + [1, 0, 0, 0] == bytes;
    hide PackSpec;
    var r := Synthesize(bytes, 1, false, props, NO_SIZE);
    assert |r.data| == 5;
    WalkStarts(r);
    assert StartOf(r, 1) == None;
  }

  const BASE_PROPERTY := PropertyInfo("Base", Pointer, OtherOut, 8, false, false)

  /** Pointers are packed in eight bytes and read in four under a 32-bit header: the 1 behind one is read as 0. */
  lemma WidePointerShiftsTheNext()
    ensures var props, bytes := [BASE_PROPERTY, NUMBER], [0, 0, 0, 0, 0, 0, 0, 0, 1, 0, 0, 0];
            && PackSpec(props, Thunks(OneNumber()), false) == Ok(Packed(bytes, ["Base"]))
            && ReadAt(Synthesize(bytes, 1, true, props, NO_SIZE), 1, Scalar(UInt32, [1, 0, 0, 0]))
              == Ok(Bytes([0, 0, 0, 0]))
  {
    var props, bytes: seq<Byte> := [BASE_PROPERTY, NUMBER], [0, 0, 0, 0, 0, 0, 0, 0, 1, 0, 0, 0];
    NumberBehindFiller(BASE_PROPERTY, 8);
    assert Zeros(8) + [1, 0, 0, 0] == bytes;
    hide PackSpec;
    var r := Synthesize(bytes, 1, true, props, NO_SIZE);
    assert r.data == bytes;
    WalkStarts(r);
    assert StartOf(r, 1) == Some(4) && StartOf(r, 2) == Some(8);
    assert r.data[4..8] == [0, 0, 0, 0];
  }

  function BlobProperty(name: string, length: nat): PropertyInfo {
    PropertyInfo(name, Binary, OtherOut, length, false, false)
  }

  const BLOB_PROPERTIES := [BlobProperty("A", 40000), BlobProperty("B", 30000)]

  function TwoBlobs(): seq<Assignment> {
    [Assignment("A", Blob(Zeros(40000))), Assignment("B", Blob(Zeros(30000)))]
  }

  /** Two blobs of 40000 and 30000 bytes do not read back: 4464 bytes of the record are left. */
  lemma OversizedBlobsAreLost() returns (bytes: seq<Byte>)
    ensures DistinctNames(BLOB_PROPERTIES) && AllFit(TwoBlobs(), BLOB_PROPERTIES, false)
    ensures PackSpec(BLOB_PROPERTIES, Thunks(TwoBlobs()), false) == Ok(Packed(bytes, [])) && |bytes| == 70000
    ensures |Synthesize(bytes, 1, false, BLOB_PROPERTIES, NO_SIZE).data| == 4464
    ensures !AllReadBack(Synthesize(bytes, 1, false, BLOB_PROPERTIES, NO_SIZE), Values(TwoBlobs(), BLOB_PROPERTIES))
  {
    TwoBlobsPack(BLOB_PROPERTIES, TwoBlobs());
    TwoBlobsTyped();
    hide PackSpec;
    bytes := PackSpec(BLOB_PROPERTIES, Thunks(TwoBlobs()), false).value.bytes;
    OversizedRecordLosesItsEnd(TwoBlobs(), BLOB_PROPERTIES, false, 1, false, NO_SIZE);
  }

  lemma TwoBlobsTyped()
    ensures AllTyped(TwoBlobs(), BLOB_PROPERTIES, false)
  {
  }

  lemma TwoBlobsPack(props: seq<PropertyInfo>, s: seq<Assignment>)
    requires props == [BlobProperty("A", 40000), BlobProperty("B", 30000)]
    requires s == [Assignment("A", Blob(Zeros(40000))), Assignment("B", Blob(Zeros(30000)))]
    ensures DistinctNames(props) && AllFit(s, props, false) && !ValueFor(s, props[1]).EmptyText()
    ensures PackSpec(props, Thunks(s), false).Ok? && PackSpec(props, Thunks(s), false).value.unfilled == []
    ensures |PackSpec(props, Thunks(s), false).value.bytes| == 70000
  {
    var a, b := ThunkOf("A", s[0].value), ThunkOf("B", s[1].value);
    assert s[1..] == [s[1]] && s[1..][1..] == [];
    assert Thunks(s[1..]) == [b];
    assert Thunks(s) == [a, b];
    assert [a, b][1..] == [b];
    assert |a.bytes| == 40000 && |b.bytes| == 30000;
    assert FindThunk([b], "B") == Some(b);
    assert Assigned(s[1..], "B") == Some(s[1].value);
    assert props[..1][..0] == [] && props[..1][0] == props[0];
    assert PackDraft(props[..1], Thunks(s)) == Ok(Draft([] + a.bytes, [], 0));
    assert PackDraft(props, Thunks(s)) == Ok(Draft([] + a.bytes + b.bytes, [], 0));
  }

  // ---------------------------------------------------------------------------------------------
  // Registrations.

  function Seen(image: string): ProcessContext {
    NEW_CONTEXT.(pid := 4711, createTimeTicks := 1, image := image)
  }

  /** Two registrations of one lifetime that know different images: the later one wins. */
  lemma LaterImageWins()
    ensures var s, a, b := Store(map[], 1), Seen("a.exe"), Seen("b.exe");
            && Lifetimes.Invariant(s) && RegistrationOrder.OfLifetime([a, b], 4711, 1)
            && RegistrationOrder.RegisterAll(s, [a, b]).0.contexts == map[1 := b.(uniqueProcessKey := 1)]
            && RegistrationOrder.RegisterAll(s, [b, a]).0.contexts == map[1 := a.(uniqueProcessKey := 1)]
  {
    var s, a, b := Store(map[], 1), Seen("a.exe"), Seen("b.exe");
    LastOfTwo(s, a, b);
    LastOfTwo(s, b, a);
  }

  lemma LastOfTwo(s: Store, a: ProcessContext, b: ProcessContext)
    requires s == Store(map[], 1) && {a, b} == {Seen("a.exe"), Seen("b.exe")} && a != b
    ensures RegistrationOrder.OfLifetime([a, b], 4711, 1)
    ensures RegistrationOrder.RegisterAll(s, [a, b]).0.contexts == map[1 := b.(uniqueProcessKey := 1)]
  {
    assert Lifetimes.Invariant(s);
    assert a in {a, b} && b in {a, b};
    RegistrationOrder.RegisterAllInserts(s, [a, b], 4711, 1);
    assert [a, b][..1] == [a];
    RegistrationOrder.CombinedStep([a, b], 1);
    RegistrationOrder.CombinedOne([a], 1);
  }

  // ---------------------------------------------------------------------------------------------
  // The environment block.

  /** A Codex home "C", NUL, "D" is decoded as a Codex home "C" and a further entry "D". */
  lemma NulSplitsCodexHome()
    ensures var home := ChildEnvironment.NAME + [67, 0, 68];
            ChildEnvironment.Decode(ChildEnvironment.Encode([home])) == [ChildEnvironment.NAME + [67], [68]]
  {
    var first, home := ChildEnvironment.NAME + [67], ChildEnvironment.NAME + [67, 0, 68];
    var entries: seq<ChildEnvironment.Entry> := [home];
    assert entries[1..] == [];
    assert ChildEnvironment.Encode(entries) == home + [0] + [0];
    assert home + [0] + [0] == first + [0] + ([68] + [0] + [0]);
    assert 0 !in first;
    ChildEnvironment.DecodeFirst(first, [68] + [0] + [0]);
    ChildEnvironment.DecodeFirst([68], [0]);
    assert ChildEnvironment.Decode([0]) == [];
  }

  /** So the child of a parent without environment gets no such Codex home, however case is folded. */
  method LostCodexHome(fold: Wide -> Wide) returns (block: seq<Wide>)
    ensures !ChildEnvironment.OneCodexHome(fold, ChildEnvironment.Decode([0]), ChildEnvironment.Decode(block),
                                           ChildEnvironment.NAME + [67, 0, 68])
  {
    var codexHome: ChildEnvironment.Entry := [67, 0, 68];
    assert codexHome[1] == 0;
    var required: nat;
    block, required := ChildEnvironment.BuildChildEnvironment(fold, [0], codexHome);
  }
}
