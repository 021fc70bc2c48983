/** Packing and parsing composed: exactly when a synthetic record gives back what it was built from. */
module PackedRecords {
  import opened Prelude
  import opened SizeProvider
  import opened Parser
  import opened RecordBuilder
  import opened RoundTrip
  import opened ExactReading

  datatype Assignment = Assignment(name: string, value: Value)

  function Thunks(s: seq<Assignment>): seq<Thunk> {
    if s == [] then [] else [ThunkOf(s[0].name, s[0].value)] + Thunks(s[1..])
  }

  function Assigned(s: seq<Assignment>, name: string): Option<Value> {
    if s == [] then None else if s[0].name == name then Some(s[0].value) else Assigned(s[1..], name)
  }

  /** What an unfilled property is filled with: zero in the type's own width, or the empty string. */
  function DefaultValue(t: InType): Value {
    match t
    case UnicodeString => Text([])
    case AnsiString => Ansi([])
    case Boolean => Bool(false)
    case Pointer => Ptr(0)
    case Binary => Blob([0])
    case Int8 | UInt8 => Scalar(t, [0])
    case Int16 | UInt16 => Scalar(t, [0, 0])
    case Int32 | UInt32 | Float | HexInt32 => Scalar(t, ToLittleEndian(0, 4))
    case Int64 | UInt64 | Double | FileTime | Sid | HexInt64 => Scalar(t, ToLittleEndian(0, 8))
    case Guid | SystemTime => Scalar(t, ToLittleEndian(0, 8) + ToLittleEndian(0, 8))
    case NullType | UnlistedType => Scalar(t, [])
  }

  function ValueFor(s: seq<Assignment>, p: PropertyInfo): Value {
    Assigned(s, p.name).GetOr(DefaultValue(p.inType))
  }

  function Values(s: seq<Assignment>, props: seq<PropertyInfo>): (vs: seq<Value>)
    ensures |vs| == |props|
  {
    seq(|props|, i requires 0 <= i < |props| => ValueFor(s, props[i]))
  }

  /** The last terminator goes only if trimming was asked for and the last property is a supplied string. */
  predicate LeftOpen(s: seq<Assignment>, props: seq<PropertyInfo>, trim: bool) {
    trim && props != [] && match Assigned(s, props[|props| - 1].name)
                           case Some(v) => v.IsString()
                           case None => false
  }

  /** synth_record: the length field has 16 bits, and no data means no address. */
  function Synthesize(bytes: seq<Byte>, address: nat, header32: bool, props: seq<PropertyInfo>,
      tdhSize: string -> nat): (r: EventRecord)
    requires address > 0
    ensures r.Valid()
  {
    EventRecord(if bytes == [] then 0 else address, bytes[..|bytes| % U16], header32, props, tdhSize)
  }

  lemma {:induction false} FoundThunk(s: seq<Assignment>, name: string)
    ensures FindThunk(Thunks(s), name) == match Assigned(s, name)
                                          case Some(v) => Some(ThunkOf(name, v))
                                          case None => None
  {
    if s != [] {
      assert Thunks(s)[1..] == Thunks(s[1..]);
      FoundThunk(s[1..], name);
    }
  }

  lemma PackedField(s: seq<Assignment>, p: PropertyInfo)
    requires PackField(p, Thunks(s)).Ok? && ValueFor(s, p).WellMade()
    ensures var v, f := ValueFor(s, p), PackField(p, Thunks(s)).value;
            && f.0 == v.Content() + v.Terminator()
            && f.1 == Assigned(s, p.name).Some?
            && v.Type() == p.inType && TrimOf(p) == |v.Terminator()|
  {
    FoundThunk(s, p.name);
    if Assigned(s, p.name).None? {
      FillerIsDefault(p.inType);
    }
  }

  /** The filler writes exactly the bytes of the default value, and there is none only where that has no bytes. */
  lemma FillerIsDefault(t: InType)
    ensures HowManyBytesToFill(t).None? <==> t.NullType? || t.UnlistedType?
    ensures HowManyBytesToFill(t).Some? ==>
              Zeros(HowManyBytesToFill(t).value) == DefaultValue(t).Content() + DefaultValue(t).Terminator()
    ensures DefaultValue(t).Type() == t
  {
    if HowManyBytesToFill(t).Some? {
      var zero := DefaultValue(t).Content() + DefaultValue(t).Terminator();
      DefaultIsZero(t);
      assert Zeros(HowManyBytesToFill(t).value) == zero;
    }
  }

  /** The width of a type, and nothing but zeros in it. */
  lemma DefaultIsZero(t: InType)
    requires !t.NullType? && !t.UnlistedType?
    ensures var zero := DefaultValue(t).Content() + DefaultValue(t).Terminator();
            && (forall k :: 0 <= k < |zero| ==> zero[k] == 0)
            && |zero| == match t
                         case AnsiString | Int8 | UInt8 | Binary => 1
                         case UnicodeString | Int16 | UInt16 => 2
                         case Int32 | UInt32 | Float | Boolean | HexInt32 => 4
                         case Guid | SystemTime => 16
                         case _ => 8
  {
    ZeroLittleEndian(4);
    ZeroLittleEndian(8);
    hide ToLittleEndian;
  }

  lemma {:induction false} ZeroLittleEndian(width: nat)
    ensures ToLittleEndian(0, width) == Zeros(width)
  {
    if width > 0 {
      ZeroLittleEndian(width - 1);
    }
  }

  predicate AllWellMade(s: seq<Assignment>, props: seq<PropertyInfo>) {
    forall p :: p in props ==> ValueFor(s, p).WellMade()
  }

  /** pack_impl's accumulator is the concatenation of the values' fields. */
  lemma {:induction false} DraftIsLayout(s: seq<Assignment>, props: seq<PropertyInfo>)
    requires PackDraft(props, Thunks(s)).Ok? && AllWellMade(s, props)
    ensures PackDraft(props, Thunks(s)).value.bytes == Flatten(Fields(Values(s, props)))
    ensures PackDraft(props, Thunks(s)).value.trim ==
            if props != [] && Assigned(s, props[|props| - 1].name).Some?
            then |ValueFor(s, props[|props| - 1]).Terminator()| else 0
  {
    if props != [] {
      var n := |props| - 1;
      var front := props[..n];
      DraftIsLayout(s, front);
      PackedField(s, props[n]);
      FieldsOfFront(s, props);
      hide PackField;
      hide Fields;
      hide Field;
    }
  }

  lemma FieldsOfFront(s: seq<Assignment>, props: seq<PropertyInfo>)
    requires props != []
    ensures var n, fs := |props| - 1, Fields(Values(s, props));
            fs[..n] == Fields(Values(s, props[..n])) && fs[n] == Field(ValueFor(s, props[n]))
  {
    hide Field;
    hide ValueFor;
    var n, fs := |props| - 1, Fields(Values(s, props));
    forall i | 0 <= i < n ensures fs[i] == Fields(Values(s, props[..n]))[i] { assert props[..n][i] == props[i]; }
  }

  /** How many bytes the packed record lacks at its end. */
  function TrimmedBytes(s: seq<Assignment>, props: seq<PropertyInfo>, trim: bool): nat {
    if LeftOpen(s, props, trim) then |ValueFor(s, props[|props| - 1]).Terminator()| else 0
  }

  /** The packed bytes are the values' fields in schema order, short of the last terminator if it was trimmed. */
  lemma PackIsLayout(s: seq<Assignment>, props: seq<PropertyInfo>, trim: bool)
    requires PackSpec(props, Thunks(s), trim).Ok? && AllWellMade(s, props)
    ensures var bytes, all := PackSpec(props, Thunks(s), trim).value.bytes, Flatten(Fields(Values(s, props)));
            bytes <= all && |bytes| == |all| - TrimmedBytes(s, props, trim)
  {
    hide PackDraft;
    hide Flatten;
    hide Fields;
    DraftIsLayout(s, props);
    LayoutHoldsLast(s, props);
  }

  lemma LayoutHoldsLast(s: seq<Assignment>, props: seq<PropertyInfo>)
    ensures props != [] ==> |ValueFor(s, props[|props| - 1]).Terminator()| <= |Flatten(Fields(Values(s, props)))|
  {
    if props != [] {
      FieldAt([], Values(s, props), |props| - 1);
    }
  }

  /** The record built from an assignment. */
  function Record(s: seq<Assignment>, props: seq<PropertyInfo>, trim: bool,
                  address: nat, header32: bool, tdhSize: string -> nat): (r: EventRecord)
    requires address > 0 && PackSpec(props, Thunks(s), trim).Ok?
    ensures r.Valid() && r.props == props && r.header32 == header32 && r.tdhSize == tdhSize
  {
    Synthesize(PackSpec(props, Thunks(s), trim).value.bytes, address, header32, props, tdhSize)
  }

  ghost predicate AllFit(s: seq<Assignment>, props: seq<PropertyInfo>, header32: bool) {
    forall i :: 0 <= i < |props| ==> Shape(header32, props[i], ValueFor(s, props[i]))
  }

  lemma RecordIsLaidOut(
      s: seq<Assignment>, props: seq<PropertyInfo>, trim: bool,
      address: nat, header32: bool, tdhSize: string -> nat)
    requires address > 0 && PackSpec(props, Thunks(s), trim).Ok? && AllFit(s, props, header32)
    ensures LaidOut(Record(s, props, trim, address, header32, tdhSize), Values(s, props))
  {
    hide PackSpec;
    hide Flatten;
    hide Fields;
    assert AllWellMade(s, props);
    hide ValueFor;
    PackIsLayout(s, props, trim);
  }

  /** Round trip. For every flat schema with distinct names and every assignment of any size that packs - whether or
      not its values have the lengths the schema declares - the record gives back every supplied value, and zero or
      the empty string for every property left out, under any hint, exactly when the packed bytes say each value
      at the place its predecessors' declared lengths lead to. */
  lemma PackedRecordReadsBack(
      s: seq<Assignment>, props: seq<PropertyInfo>, trim: bool,
      address: nat, header32: bool, tdhSize: string -> nat)
    requires DistinctNames(props) && address > 0 && AllDeclarable(props, Values(s, props))
    requires PackSpec(props, Thunks(s), trim).Ok?
    ensures var r := Record(s, props, trim, address, header32, tdhSize);
            AllReadBack(r, Values(s, props)) <==> AllReadable(r, Values(s, props), |props|)
  {
    hide PackSpec;
    hide AllReadBack;
    hide AllReadable;
    hide AllDeclarable;
    AnyRecordReads(Record(s, props, trim, address, header32, tdhSize), Values(s, props));
  }

  /** If every value has its declared length, that is: exactly when every value survives the end of the record. */
  lemma FittingRecordReadsBack(
      s: seq<Assignment>, props: seq<PropertyInfo>, trim: bool,
      address: nat, header32: bool, tdhSize: string -> nat)
    requires DistinctNames(props) && address > 0 && AllFit(s, props, header32)
    requires PackSpec(props, Thunks(s), trim).Ok?
    ensures var r := Record(s, props, trim, address, header32, tdhSize);
            AllReadBack(r, Values(s, props)) <==> AllSurvive(r, Values(s, props), |props|)
  {
    hide PackSpec;
    hide AllReadBack;
    hide AllSurvive;
    hide LaidOut;
    RecordIsLaidOut(s, props, trim, address, header32, tdhSize);
    RecordReadsBack(Record(s, props, trim, address, header32, tdhSize), Values(s, props));
  }

  /** A property whose read gives away its size: flags declare the four bytes that are read of them, and pointers
      have the eight bytes that are packed of them. Lengths may be declared differently from the values'. */
  predicate Typed(header32: bool, p: PropertyInfo, v: Value) {
    && Declarable(p, v)
    && (!v.IsString() ==> !p.paramLength && p.length > 0)
    && (v.Bool? ==> p.length == 4)
    && (v.Ptr? ==> !header32)
  }

  ghost predicate AllTyped(s: seq<Assignment>, props: seq<PropertyInfo>, header32: bool) {
    forall i :: 0 <= i < |props| ==> Typed(header32, props[i], ValueFor(s, props[i]))
  }

  lemma ReadableFits(r: EventRecord, p: PropertyInfo, v: Value, off: nat)
    requires Typed(r.header32, p, v) && ReadableAt(r, p, v, off)
    ensures Shape(r.header32, p, v)
  {
  }

  /** Then every value must have its declared length, too: the builder does not look at lengths, the parser does. */
  lemma TypedRecordReadsBack(
      s: seq<Assignment>, props: seq<PropertyInfo>, trim: bool,
      address: nat, header32: bool, tdhSize: string -> nat)
    requires DistinctNames(props) && address > 0 && AllTyped(s, props, header32)
    requires PackSpec(props, Thunks(s), trim).Ok?
    ensures var r := Record(s, props, trim, address, header32, tdhSize);
            AllReadBack(r, Values(s, props)) <==> AllFit(s, props, header32) && AllSurvive(r, Values(s, props), |props|)
  {
    hide PackSpec;
    hide AllReadBack;
    hide AllSurvive;
    hide ReadableAt;
    hide Placed;
    hide Shape;
    hide DistinctNames;
    var r, vs := Record(s, props, trim, address, header32, tdhSize), Values(s, props);
    if AllReadBack(r, vs) {
      PackedRecordReadsBack(s, props, trim, address, header32, tdhSize);
      forall i | 0 <= i < |props| ensures Shape(header32, props[i], vs[i]) {
        ReadableFits(r, props[i], vs[i], Placed(r, vs, i));
      }
    }
    if AllFit(s, props, header32) {
      FittingRecordReadsBack(s, props, trim, address, header32, tdhSize);
    }
  }

  // ---------------------------------------------------------------------------------------------
  // What that means below and above 65535 bytes.

  /** What the builder's caller can check of a record that fits: no NUL inside a string, and no trimmed empty
      string unless TDH knows its size is 0 and something precedes it. */
  predicate Packable(vs: seq<Value>, open: bool, lastTdhSize: nat) {
    && (forall i :: 0 <= i < |vs| ==> vs[i].NulFreeText())
    && (open && |vs| > 0 && vs[|vs| - 1].EmptyText() ==> lastTdhSize == 0 && |vs| > 1)
  }

  lemma {:induction false} BeginGrows(vs: seq<Value>, i: nat, j: nat)
    requires i <= j <= |vs|
    ensures Begin(vs, i) <= Begin(vs, j)
    decreases j
  {
    if i < j {
      FieldAt([], vs, j - 1);
      BeginGrows(vs, i, j - 1);
    }
  }

  lemma EndOfLast(vs: seq<Value>)
    ensures Begin(vs, |vs|) == |Flatten(Fields(vs))|
    ensures vs != [] ==> Begin(vs, |vs| - 1) + |Field(vs[|vs| - 1])| == |Flatten(Fields(vs))|
  {
    assert Fields(vs)[..|vs|] == Fields(vs);
    if vs != [] {
      FieldAt([], vs, |vs| - 1);
    }
  }

  /** With all of the layout in the record but the last terminator, everything survives that is packable. */
  lemma FittingSurvives(r: EventRecord, vs: seq<Value>, open: bool)
    requires LaidOut(r, vs) && (r.data == [] ==> r.userData == 0)
    requires open ==> vs != [] && vs[|vs| - 1].IsString()
    requires |r.data| == |Flatten(Fields(vs))| - if open then |vs[|vs| - 1].Terminator()| else 0
    ensures AllSurvive(r, vs, |vs|) <==> Packable(vs, open, if vs == [] then 0 else r.tdhSize(r.props[|vs| - 1].name))
  {
    if vs != [] {
      hide Flatten;
      hide Fields;
      hide Begin;
      hide Survives;
      hide LaidOut;
      hide Field;
      hide AllSurvive;
      EndOfLast(vs);
      LastSurvives(r, vs, open);
      FrontSurvives(r, vs, |vs| - 1);
      AllButLast(r, vs);
      hide Value.Content;
      hide Value.Terminator;
      hide Value.NulFreeText;
      hide Value.EmptyText;
      hide Value.IsString;
    }
  }

  lemma AllButLast(r: EventRecord, vs: seq<Value>)
    requires vs != [] && |vs| == |r.props|
    ensures var n := |vs| - 1;
            AllSurvive(r, vs, |vs|) <==> AllSurvive(r, vs, n) && Survives(r, r.props[n], vs[n], Begin(vs, n))
  {
    hide Survives;
    hide Begin;
  }

  /** What lies before position n of the layout is whole if n lies in the record. */
  lemma FrontSurvives(r: EventRecord, vs: seq<Value>, n: nat)
    requires n <= |vs| == |r.props| && Begin(vs, n) <= |r.data|
    ensures AllSurvive(r, vs, n) <==> forall i :: 0 <= i < n ==> vs[i].NulFreeText()
  {
    hide Flatten;
    hide Fields;
    hide Begin;
    hide Field;
    forall i | 0 <= i < n ensures Survives(r, r.props[i], vs[i], Begin(vs, i)) <==> vs[i].NulFreeText() {
      FieldAt([], vs, i);
      BeginGrows(vs, i + 1, n);
    }
    hide Survives;
  }

  lemma LastSurvives(r: EventRecord, vs: seq<Value>, open: bool)
    requires LaidOut(r, vs) && (r.data == [] ==> r.userData == 0) && vs != []
    requires open ==> vs[|vs| - 1].IsString()
    requires var n := |vs| - 1;
             Begin(vs, n) + |Field(vs[n])| == |r.data| + if open then |vs[n].Terminator()| else 0
    ensures var n := |vs| - 1;
            Survives(r, r.props[n], vs[n], Begin(vs, n)) <==>
            vs[n].NulFreeText() && (open && vs[n].EmptyText() ==> r.tdhSize(r.props[n].name) == 0 && |vs| > 1)
    ensures Begin(vs, |vs| - 1) <= |r.data|
  {
    hide Flatten;
    hide Fields;
    hide Begin;
    var n := |vs| - 1;
    NothingBefore(vs);
    if n > 0 {
      FieldAt([], vs, 0);
      FieldIsNotEmpty(r.header32, r.props[0], vs[0]);
      BeginGrows(vs, 1, n);
    }
  }

  lemma OpenIsString(s: seq<Assignment>, props: seq<PropertyInfo>, trim: bool)
    requires LeftOpen(s, props, trim)
    ensures ValueFor(s, props[|props| - 1]).IsString()
  {
  }

  lemma ShortRecordIsWhole(bytes: seq<Byte>, address: nat, header32: bool, props: seq<PropertyInfo>,
      tdhSize: string -> nat)
    requires |bytes| < U16 && address > 0
    ensures Synthesize(bytes, address, header32, props, tdhSize).data == bytes
  {
    assert |bytes| % U16 == |bytes|;
  }

  /** A record that fits holds the whole layout but the trimmed terminator. */
  lemma SmallRecordIsWhole(
      s: seq<Assignment>, props: seq<PropertyInfo>, trim: bool,
      address: nat, header32: bool, tdhSize: string -> nat)
    requires address > 0 && AllFit(s, props, header32)
    requires PackSpec(props, Thunks(s), trim).Ok?
    requires |PackSpec(props, Thunks(s), trim).value.bytes| < U16
    ensures var r, vs := Record(s, props, trim, address, header32, tdhSize), Values(s, props);
            && (r.data == [] ==> r.userData == 0)
            && (LeftOpen(s, props, trim) ==> vs != [] && vs[|vs| - 1].IsString())
            && |r.data| == |Flatten(Fields(vs))| - if LeftOpen(s, props, trim) then |vs[|vs| - 1].Terminator()| else 0
  {
    hide PackSpec;
    hide Flatten;
    hide Fields;
    assert AllWellMade(s, props);
    hide AllFit;
    var bytes := PackSpec(props, Thunks(s), trim).value.bytes;
    ShortRecordIsWhole(bytes, address, header32, props, tdhSize);
    PackIsLayout(s, props, trim);
    if LeftOpen(s, props, trim) {
      OpenIsString(s, props, trim);
    }
  }

  lemma SmallRecordSurvives(
      s: seq<Assignment>, props: seq<PropertyInfo>, trim: bool,
      address: nat, header32: bool, tdhSize: string -> nat)
    requires address > 0 && AllFit(s, props, header32)
    requires PackSpec(props, Thunks(s), trim).Ok?
    requires |PackSpec(props, Thunks(s), trim).value.bytes| < U16
    ensures AllSurvive(Record(s, props, trim, address, header32, tdhSize), Values(s, props), |props|) <==>
            Packable(Values(s, props), LeftOpen(s, props, trim), if props == [] then 0
              else tdhSize(props[|props| - 1].name))
  {
    hide PackSpec;
    hide Flatten;
    hide Fields;
    hide AllSurvive;
    hide Packable;
    hide LaidOut;
    hide LeftOpen;
    hide Values;
    hide AllFit;
    hide Record;
    RecordIsLaidOut(s, props, trim, address, header32, tdhSize);
    SmallRecordIsWhole(s, props, trim, address, header32, tdhSize);
    FittingSurvives(Record(s, props, trim, address, header32, tdhSize), Values(s, props), LeftOpen(s, props, trim));
  }

  /** Below 65536 bytes everything reads back exactly when the values have their declared lengths and are packable. */
  lemma SmallRecordReadsBack(
      s: seq<Assignment>, props: seq<PropertyInfo>, trim: bool,
      address: nat, header32: bool, tdhSize: string -> nat)
    requires DistinctNames(props) && address > 0 && AllTyped(s, props, header32)
    requires PackSpec(props, Thunks(s), trim).Ok?
    requires |PackSpec(props, Thunks(s), trim).value.bytes| < U16
    ensures AllReadBack(Record(s, props, trim, address, header32, tdhSize), Values(s, props)) <==>
            && AllFit(s, props, header32)
            && Packable(Values(s, props), LeftOpen(s, props, trim), if props == [] then 0
              else tdhSize(props[|props| - 1].name))
  {
    hide PackSpec;
    hide AllReadBack;
    hide AllSurvive;
    hide AllFit;
    hide AllTyped;
    hide Packable;
    TypedRecordReadsBack(s, props, trim, address, header32, tdhSize);
    if AllFit(s, props, header32) {
      SmallRecordSurvives(s, props, trim, address, header32, tdhSize);
    }
  }

  /** The property declares the width its type has; a string declares none. */
  predicate Natural(p: PropertyInfo) {
    && !p.paramLength
    && match p.inType
       case UnicodeString | AnsiString => p.outType.StringOut? && p.length == 0 && !p.otherFlags
       case Int8 | UInt8 | Binary => p.length == 1
       case Int16 | UInt16 => p.length == 2
       case Int32 | UInt32 | Float | Boolean | HexInt32 => p.length == 4
       case Int64 | UInt64 | Double | Pointer | FileTime | Sid | HexInt64 => p.length == 8
       case Guid | SystemTime => p.length == 16
       case NullType | UnlistedType => false
  }

  lemma DefaultFits(p: PropertyInfo)
    requires Natural(p)
    ensures Typed(false, p, DefaultValue(p.inType)) && Shape(false, p, DefaultValue(p.inType))
    ensures DefaultValue(p.inType).NulFreeText()
  {
  }

  /** Nothing supplied, and every property of its type's own width: the record packs whatever the types, and every
      property reads back as zero or as the empty string, under any hint. */
  lemma LeftOutReadsAsZero(props: seq<PropertyInfo>, trim: bool, address: nat, tdhSize: string -> nat)
    requires DistinctNames(props) && address > 0
    requires forall i :: 0 <= i < |props| ==> Natural(props[i])
    ensures PackSpec(props, Thunks([]), trim).Ok?
    ensures |PackSpec(props, Thunks([]), trim).value.bytes| < U16 ==>
              var r := Record([], props, trim, address, false, tdhSize);
              forall i :: 0 <= i < |props| ==> ReadsBack(r, props[i].name, DefaultValue(props[i].inType))
  {
    hide PackSpec;
    hide ReadsBack;
    hide DefaultValue;
    hide Shape;
    hide Typed;
    PackingSucceeds(props, Thunks([]), trim);
    var vs := Values([], props);
    forall i | 0 <= i < |props|
      ensures vs[i] == DefaultValue(props[i].inType) && vs[i].NulFreeText()
      ensures Typed(false, props[i], vs[i]) && Shape(false, props[i], vs[i])
    {
      DefaultFits(props[i]);
    }
    if |PackSpec(props, Thunks([]), trim).value.bytes| < U16 {
      hide Natural;
      hide Values;
      SmallRecordReadsBack([], props, trim, address, false, tdhSize);
    }
  }

  /** The last value of a layout that is cut by more than a terminator. */
  lemma LastIsLost(r: EventRecord, vs: seq<Value>)
    requires vs != [] && |vs| == |r.props| && !vs[|vs| - 1].EmptyText()
    requires |r.data| + 2 < |Flatten(Fields(vs))|
    ensures !AllSurvive(r, vs, |vs|)
  {
    hide Flatten;
    hide Fields;
    hide Begin;
    EndOfLast(vs);
    var n := |vs| - 1;
    assert !Survives(r, r.props[n], vs[n], Begin(vs, n));
  }

  /** From 65536 bytes on, a record whose last value is not the empty string does not read back. */
  lemma OversizedRecordLosesItsEnd(
      s: seq<Assignment>, props: seq<PropertyInfo>, trim: bool,
      address: nat, header32: bool, tdhSize: string -> nat)
    requires DistinctNames(props) && address > 0 && AllTyped(s, props, header32) && props != []
    requires PackSpec(props, Thunks(s), trim).Ok?
    requires |PackSpec(props, Thunks(s), trim).value.bytes| >= U16
    requires !ValueFor(s, props[|props| - 1]).EmptyText()
    ensures !AllReadBack(Record(s, props, trim, address, header32, tdhSize), Values(s, props))
  {
    hide PackSpec;
    hide Flatten;
    hide Fields;
    hide AllReadBack;
    hide AllFit;
    hide AllSurvive;
    TypedAreWellMade(s, props, header32);
    var bytes := PackSpec(props, Thunks(s), trim).value.bytes;
    PackIsLayout(s, props, trim);
    var r, vs := Record(s, props, trim, address, header32, tdhSize), Values(s, props);
    assert |r.data| <= |bytes| - U16;
    LastIsLost(r, vs);
    TypedRecordReadsBack(s, props, trim, address, header32, tdhSize);
  }

  lemma TypedAreWellMade(s: seq<Assignment>, props: seq<PropertyInfo>, header32: bool)
    requires AllTyped(s, props, header32)
    ensures AllWellMade(s, props)
  {
  }

  // ---------------------------------------------------------------------------------------------
  // The builder's and the parser's methods, one behind the other.

  lemma {:induction false} ThunksSnoc(s: seq<Assignment>, a: Assignment)
    ensures Thunks(s + [a]) == Thunks(s) + [ThunkOf(a.name, a.value)]
  {
    if s != [] {
      assert (s + [a])[1..] == s[1..] + [a];
      ThunksSnoc(s[1..], a);
    }
  }

  lemma {:induction false} ThunksAreTerminated(s: seq<Assignment>)
    requires forall a :: a in s ==> a.value.WellMade()
    ensures StringsTerminated(Thunks(s))
  {
    if s != [] {
      ThunksAreTerminated(s[1..]);
      assert s[0].value.WellMade();
    }
  }

  /** A parser that has been used before in any way, asked for properties in some order. */
  method ParseInOrder(parser: Parser, s: seq<Assignment>, order: seq<nat>)
      returns (values: seq<Result<Parsed, ParseError>>)
    requires parser.Valid() && DistinctNames(parser.record.props)
    requires forall k :: 0 <= k < |order| ==> order[k] < |parser.record.props|
    modifies parser
    ensures |values| == |order|
    ensures forall k :: 0 <= k < |order| ==>
              values[k] == ReadAt(parser.record, order[k], ValueFor(s, parser.record.props[order[k]]))
  {
    hide EagerParse;
    hide ReadAt;
    var r := parser.record;
    values := [];
    for k := 0 to |order|
      invariant parser.Valid() && |values| == k
      invariant forall j :: 0 <= j < k ==> values[j] == ReadAt(r, order[j], ValueFor(s, r.props[order[j]]))
    {
      var i := order[k];
      EveryHintWalks(r, i, parser.nextHint, ValueFor(s, r.props[i]));
      var value := parser.Parse(r.props[i].name, RequestFor(ValueFor(s, r.props[i])));
      values := values + [value];
    }
  }

  /** The builder and the parser together: whatever the assignment, an error of packing is reported, and otherwise
      every property is read as an untouched parser would read it, in whatever order and however often it is asked
      for; those are the values it was given, all of them, exactly if the packed bytes say each at its place. */
  method PackAndParse(
      s: seq<Assignment>, props: seq<PropertyInfo>, trim: bool,
      address: nat, header32: bool, tdhSize: string -> nat, order: seq<nat>)
    returns (result: Result<seq<Result<Parsed, ParseError>>, PackError>)
    requires DistinctNames(props) && address > 0
    requires forall a :: a in s ==> a.value.WellMade()
    requires forall k :: 0 <= k < |order| ==> order[k] < |props|
    ensures result.Ok? <==> PackSpec(props, Thunks(s), trim).Ok?
    ensures result.Err? ==> result.error == PackSpec(props, Thunks(s), trim).error
    ensures result.Ok? ==>
              && |result.value| == |order|
              && forall k :: 0 <= k < |order| ==>
                   result.value[k] == ReadAt(Record(s, props, trim, address, header32, tdhSize), order[k],
                     ValueFor(s, props[order[k]]))
    ensures result.Ok? && AllDeclarable(props, Values(s, props))
            && AllReadable(Record(s, props, trim, address, header32, tdhSize), Values(s, props), |props|) ==>
              forall k :: 0 <= k < |order| ==> result.value[k] == Ok(ViewOf(ValueFor(s, props[order[k]])))
    ensures result.Ok? && AllDeclarable(props, Values(s, props)) && (forall i :: 0 <= i < |props| ==> i in order)
            && !AllReadable(Record(s, props, trim, address, header32, tdhSize), Values(s, props), |props|) ==>
              exists k :: 0 <= k < |order| && result.value[k] != Ok(ViewOf(ValueFor(s, props[order[k]])))
  {
    hide PackSpec;
    hide EagerParse;
    hide ReadAt;
    hide Thunks;
    hide AllDeclarable;
    hide AllReadable;
    var thunks := MakeThunks(s);
    ThunksAreTerminated(s);
    var packed := PackIncomplete(props, thunks, trim, [], 0);
    if packed.Err? {
      return Err(packed.error);
    }
    var r := Synthesize(packed.value.userData, address, header32, props, tdhSize);
    var parser := new Parser(r);
    var values := ParseInOrder(parser, s, order);
    result := Ok(values);
    if AllDeclarable(props, Values(s, props)) {
      ReadFaithfully(s, props, trim, address, header32, tdhSize);
      if i :|
        0 <= i < |props| && i in order && ReadAt(r, i, ValueFor(s, props[i])) != Ok(ViewOf(ValueFor(s, props[i]))) {
        ghost var k :| 0 <= k < |order| && order[k] == i;
        assert values[k] != Ok(ViewOf(ValueFor(s, props[order[k]])));
      }
    }
  }

  /** The round trip, read by read. */
  lemma ReadFaithfully(
      s: seq<Assignment>, props: seq<PropertyInfo>, trim: bool,
      address: nat, header32: bool, tdhSize: string -> nat)
    requires DistinctNames(props) && address > 0 && AllDeclarable(props, Values(s, props))
    requires PackSpec(props, Thunks(s), trim).Ok?
    ensures var r := Record(s, props, trim, address, header32, tdhSize);
            AllReadable(r, Values(s, props), |props|) <==>
            forall i :: 0 <= i < |props| ==> ReadAt(r, i, ValueFor(s, props[i])) == Ok(ViewOf(ValueFor(s, props[i])))
  {
    hide PackSpec;
    hide ReadAt;
    hide AllReadable;
    hide ReadsBack;
    hide ValueFor;
    hide AllDeclarable;
    PackedRecordReadsBack(s, props, trim, address, header32, tdhSize);
    var r := Record(s, props, trim, address, header32, tdhSize);
    forall i | 0 <= i < |props| {
      ReadsBackByWalk(r, i, ValueFor(s, props[i]));
    }
  }

  method MakeThunks(s: seq<Assignment>) returns (thunks: seq<Thunk>)
    ensures thunks == Thunks(s)
  {
    thunks := [];
    for i := 0 to |s|
      invariant thunks == Thunks(s[..i])
    {
      ThunksSnoc(s[..i], s[i]);
      assert s[..i + 1] == s[..i] + [s[i]];
      var thunk := MakeThunk(s[i].name, s[i].value);
      thunks := thunks + [thunk];
    }
    assert s[..|s|] == s;
  }
}
