/** When a record reads back: the walk over laid-out values, whole or cut short, value by value. */
module RoundTrip {
  import opened Prelude
  import opened SizeProvider
  import opened Parser
  import opened RecordBuilder

  /** The request that matches a value's type, and what a faithful parse of it returns. */
  function RequestFor(v: Value): Request {
    match v
    case Scalar(_, raw) => AsScalar(|raw|)
    case Bool(_) => AsBool
    case Text(_) => AsWide
    case Ansi(_) => AsNarrow
    case Ptr(_) => AsPointer
    case Blob(_) => AsBinary
  }

  function ViewOf(v: Value): Parsed {
    match v
    case Scalar(_, raw) => Bytes(raw)
    case Bool(b) => Flag(b)
    case Text(wide) => WideText(wide)
    case Ansi(narrow) => NarrowText(narrow)
    case Ptr(target) => Address(target)
    case Blob(blob) => Bytes(blob)
  }

  /** Property p declares a place that value v fills exactly: strings with OutType STRING and no length,
      everything else with the length of its bytes. */
  predicate Shape(header32: bool, p: PropertyInfo, v: Value) {
    && v.WellMade()
    && p.inType == v.Type()
    && !p.paramLength
    && if v.IsString() then p.outType.StringOut? && p.length == 0 && !p.otherFlags
       else p.length > 0 && |v.Content()| == if v.Ptr? then (if header32 then 4 else 8) else p.length
  }

  /** A value's bytes as packed. */
  function Field(v: Value): seq<Byte> {
    v.Content() + v.Terminator()
  }

  function Fields(vs: seq<Value>): (fields: seq<seq<Byte>>)
    ensures |fields| == |vs|
  {
    seq(|vs|, i requires 0 <= i < |vs| => Field(vs[i]))
  }

  /** Where the field of value i begins. */
  function Begin(vs: seq<Value>, i: nat): nat
    requires i <= |vs|
  {
    |Flatten(Fields(vs)[..i])|
  }

  /** The record holds the fields of the values one behind the other, perhaps cut short at its end: by a
      trimmed terminator, or by the 16-bit length. */
  predicate LaidOut(r: EventRecord, vs: seq<Value>) {
    && r.Valid()
    && |vs| == |r.props|
    && r.data <= Flatten(Fields(vs))
    && forall i :: 0 <= i < |vs| ==> Shape(r.header32, r.props[i], vs[i])
  }

  /** The data agrees with f from position b on, as far as the data goes. */
  predicate Holds(data: seq<Byte>, b: nat, f: seq<Byte>) {
    forall k :: 0 <= k < |f| && b + k < |data| ==> data[b + k] == f[k]
  }

  /** Value v, packed at position b, outlives the end of the record: no NUL hides in it, and it is whole; or a
      string that lost exactly its terminator; or an empty string beyond the end that TDH sizes 0, in a record
      that has an address. */
  predicate Survives(r: EventRecord, p: PropertyInfo, v: Value, b: nat) {
    && v.NulFreeText()
    && (|| b + |Field(v)| <= |r.data|
        || (v.IsString() && !v.EmptyText() && b + |v.Content()| == |r.data|)
        || (v.EmptyText() && b >= |r.data| && r.tdhSize(p.name) == 0 && r.userData != 0))
  }

  function Min(a: nat, b: nat): nat {
    if a <= b then a else b
  }

  // ---------------------------------------------------------------------------------------------
  // Fields in the record.

  lemma FieldAt(data: seq<Byte>, vs: seq<Value>, i: nat)
    requires data <= Flatten(Fields(vs)) && i < |vs|
    ensures Begin(vs, i + 1) == Begin(vs, i) + |Field(vs[i])| <= |Flatten(Fields(vs))|
    ensures Holds(data, Begin(vs, i), Field(vs[i]))
  {
    hide Flatten;
    hide Field;
    var fs, b, f := Fields(vs), Begin(vs, i), Field(vs[i]);
    FlattenPart(fs, i);
    forall k | 0 <= k < |f| && b + k < |data| ensures data[b + k] == f[k] {
      assert Flatten(fs)[b..b + |f|][k] == f[k];
    }
  }

  lemma HeldSlice(data: seq<Byte>, b: nat, f: seq<Byte>)
    requires Holds(data, b, f) && b + |f| <= |data|
    ensures data[b..b + |f|] == f
  {
    forall k | 0 <= k < |f| ensures data[b..b + |f|][k] == f[k] {
      assert data[b + k] == f[k];
    }
  }

  lemma HoldsContent(data: seq<Byte>, b: nat, v: Value)
    requires Holds(data, b, Field(v))
    ensures Holds(data, b, v.Content())
  {
    forall k | 0 <= k < |v.Content()| && b + k < |data| ensures data[b + k] == v.Content()[k] {
      assert Field(v)[k] == v.Content()[k];
    }
  }

  /** A slice of a slice. */
  lemma SubSlice<T>(data: seq<T>, b: nat, f: seq<T>, c: seq<T>, tail: seq<T>)
    requires b + |f| <= |data| && data[b..b + |f|] == f
    requires f == c + tail
    ensures data[b..b + |c|] == c && data[b + |c|..b + |f|] == tail
    ensures tail != [] ==> data[b + |c|] == tail[0]
    ensures |tail| > 1 ==> data[b + |c| + 1] == tail[1]
  {
    assert data[b..b + |c|] == f[..|c|];
    assert data[b + |c|..b + |f|] == f[|c|..];
  }

  /** The size provider measures a whole NUL-free field exactly. */
  lemma WholeFieldSize(r: EventRecord, p: PropertyInfo, v: Value, b: nat)
    requires Shape(r.header32, p, v) && v.NulFreeText()
    requires b + |Field(v)| <= |r.data| && Holds(r.data, b, Field(v))
    ensures PropertySize(r, b, p) == |Field(v)|
    ensures r.data[b..b + |Field(v)|] == Field(v)
  {
    HeldSlice(r.data, b, Field(v));
    match v {
      case Text(wide) => WholeWide(r.data, b, wide);
      case Ansi(narrow) => WholeNarrow(r.data, b, narrow);
      case _ => FixedFieldSize(r, p, v, b);
    }
  }

  lemma WholeWide(data: seq<Byte>, b: nat, wide: seq<Wide>)
    requires NulFree(wide, 0)
    requires var f := EncodeWide(wide) + [0, 0]; b + |f| <= |data| && data[b..b + |f|] == f
    ensures WideExtent(data, b) == 2 * |wide| + 2
  {
    SubSlice(data, b, EncodeWide(wide) + [0, 0], EncodeWide(wide), [0, 0]);
    WideExtentOfText(data, b, wide, true);
  }

  lemma WholeNarrow(data: seq<Byte>, b: nat, narrow: seq<Byte>)
    requires NulFree(narrow, 0)
    requires var f := narrow + [0]; b + |f| <= |data| && data[b..b + |f|] == f
    ensures NarrowExtent(data, b) == |narrow| + 1
  {
    SubSlice(data, b, narrow + [0], narrow, [0]);
    NarrowExtentOfText(data, b, narrow, true);
  }

  /** It measures a non-empty text that the record ends behind. */
  lemma OpenFieldSize(r: EventRecord, p: PropertyInfo, v: Value, b: nat)
    requires Shape(r.header32, p, v) && v.NulFreeText() && v.IsString() && !v.EmptyText()
    requires b + |v.Content()| == |r.data| && Holds(r.data, b, Field(v))
    ensures PropertySize(r, b, p) == |v.Content()|
    ensures r.data[b..b + |v.Content()|] == v.Content()
  {
    HoldsContent(r.data, b, v);
    HeldSlice(r.data, b, v.Content());
    match v {
      case Text(wide) => WideExtentOfText(r.data, b, wide, false);
      case Ansi(narrow) => NarrowExtentOfText(r.data, b, narrow, false);
    }
  }

  /** With half of its terminator gone, a wide text seems to reach one byte past the record. */
  lemma HalfFieldSize(r: EventRecord, p: PropertyInfo, v: Value, b: nat)
    requires Shape(r.header32, p, v) && v.NulFreeText() && v.Text?
    requires b + |v.Content()| + 1 == |r.data| && Holds(r.data, b, Field(v))
    ensures PropertySize(r, b, p) == |v.Content()| + 2
  {
    HoldsContent(r.data, b, v);
    HeldSlice(r.data, b, v.Content());
    WideExtentOfHalf(r.data, b, v.wide);
  }

  lemma {:induction false} WideExtentOfHalf(data: seq<Byte>, off: nat, text: seq<Wide>)
    requires NulFree(text, 0)
    requires off + 2 * |text| + 1 == |data|
    requires data[off..off + 2 * |text|] == EncodeWide(text)
    ensures WideExtent(data, off) == 2 * |text| + 2
    decreases |text|
  {
    if text != [] {
      var bytes := data[off..off + 2 * |text|];
      assert data[off] == bytes[0] == text[0] % 256 && data[off + 1] == bytes[1] == text[0] / 256;
      assert text[0] != 0;
      assert data[off + 2..off + 2 + 2 * |text[1..]|] == EncodeWide(text[1..]) by {
        assert bytes[2..] == EncodeWide(text[1..]);
      }
      WideExtentOfHalf(data, off + 2, text[1..]);
    }
  }

  /** At the end of the record nothing can be measured: TDH decides. */
  lemma PastFieldSize(r: EventRecord, p: PropertyInfo, v: Value)
    requires Shape(r.header32, p, v) && v.IsString()
    ensures PropertySize(r, |r.data|, p) == r.tdhSize(p.name)
  {
  }

  lemma FixedFieldSize(r: EventRecord, p: PropertyInfo, v: Value, b: nat)
    requires Shape(r.header32, p, v) && !v.IsString()
    ensures PropertySize(r, b, p) == |Field(v)| > 0
  {
  }

  // ---------------------------------------------------------------------------------------------
  // The bytes of a value.

  /** Trailing NULs are no content. */
  lemma {:induction false} ContentOfTerminated<T>(text: seq<T>, nul: T, tail: seq<T>)
    requires NulFree(text, nul)
    requires forall k :: 0 <= k < |tail| ==> tail[k] == nul
    ensures ContentLength(text + tail, nul) == |text|
    decreases |tail|
  {
    if tail == [] {
      assert text + tail == text;
    } else {
      assert (text + tail)[..|text + tail| - 1] == text + tail[..|tail| - 1];
      ContentOfTerminated(text, nul, tail[..|tail| - 1]);
    }
  }

  lemma DecodeEncodedWide(text: seq<Wide>, tail: seq<Byte>)
    requires tail == [] || tail == [0, 0]
    ensures DecodeWide(EncodeWide(text) + tail) == text + (if tail == [] then [] else [0])
  {
    var bytes := EncodeWide(text) + tail;
    forall i | 0 <= i < |text| ensures DecodeWide(bytes)[i] == text[i] {
      assert bytes[2 * i] == EncodeWide(text)[2 * i] && bytes[2 * i + 1] == EncodeWide(text)[2 * i + 1];
    }
  }

  lemma DecodeText(wide: seq<Wide>, tail: seq<Byte>, rest: seq<Byte>)
    requires NulFree(wide, 0) && (tail == [] || tail == [0, 0])
    ensures Interpret(AsWide, EncodeWide(wide) + tail, rest) == Ok(WideText(wide))
  {
    DecodeEncodedWide(wide, tail);
    var units := wide + if tail == [] then [] else [0];
    ContentOfTerminated(wide, 0, if tail == [] then [] else [0]);
    assert units[..|wide|] == wide;
  }

  lemma DecodeNarrow(narrow: seq<Byte>, tail: seq<Byte>, rest: seq<Byte>)
    requires NulFree(narrow, 0) && (tail == [] || tail == [0])
    ensures Interpret(AsNarrow, narrow + tail, rest) == Ok(NarrowText(narrow))
  {
    ContentOfTerminated(narrow, 0, tail);
    assert (narrow + tail)[..|narrow|] == narrow;
  }

  /** Interpreting exactly the bytes of value v gives v. */
  lemma InterpretField(v: Value, tail: seq<Byte>, rest: seq<Byte>)
    requires v.WellMade() && v.NulFreeText()
    requires tail == v.Terminator() || (v.IsString() && tail == [])
    requires |rest| >= |v.Content() + tail| && rest[..|v.Content() + tail|] == v.Content() + tail
    ensures Interpret(RequestFor(v), v.Content() + tail, rest) == Ok(ViewOf(v))
  {
    match v {
      case Text(wide) => DecodeText(wide, tail, rest);
      case Ansi(narrow) => DecodeNarrow(narrow, tail, rest);
      case Ptr(target) =>
        assert v.Content() + tail == ToLittleEndian(target, 8);
        U64LittleEndian(target);
      case Bool(flag) =>
        assert v.Content() + tail == ToLittleEndian(if flag then 1 else 0, 4);
        assert rest[..4][0] == if flag then 1 else 0;
        assert ToLittleEndian(0, 3) == [0] + ToLittleEndian(0, 2) == [0, 0, 0];
      case Scalar(_, raw) => assert raw + tail == raw;
      case Blob(blob) => assert blob + tail == blob;
    }
  }

  /** Too few bytes for a text are not read as that text. */
  lemma ShortTextDiffers(v: Value, bytes: seq<Byte>, rest: seq<Byte>)
    requires v.IsString() && |bytes| < |v.Content()|
    ensures Interpret(RequestFor(v), bytes, rest) != Ok(ViewOf(v))
  {
    match v {
      case Text(wide) =>
        var n := ContentLength(DecodeWide(bytes), 0);
        assert |DecodeWide(bytes)[..n]| < |wide|;
      case Ansi(narrow) =>
        assert |bytes[..ContentLength(bytes, 0)]| < |narrow|;
    }
  }

  lemma WalkStep(r: EventRecord, i: nat, b: nat, size: nat)
    requires i < |r.props| && StartOf(r, i) == Some(b)
    requires PropertySize(r, b, r.props[i]) == size && b + size <= |r.data|
    ensures StartOf(r, i + 1) == Some(b + size)
  {
    hide PropertySize;
  }

  /** A property of `length` bytes at a known start is decoded from exactly those bytes. */
  lemma DecodeAtStart(r: EventRecord, i: nat, b: nat, f: seq<Byte>, request: Request)
    requires i < |r.props| && r.userData + b != 0
    requires StartOf(r, i) == Some(b)
    requires PropertySize(r, b, r.props[i]) == |f|
    requires b + |f| <= |r.data| && r.data[b..b + |f|] == f
    ensures ParseLookup(r, request, WalkTo(r, i)) == Interpret(request, f, r.data[b..])
  {
    hide PropertySize;
    hide Interpret;
    assert WalkTo(r, i) == Returned(Location(r.userData + b, i, |f|));
  }

  ghost function FirstNul<T>(text: seq<T>, nul: T): (k: nat)
    requires nul in text
    ensures k < |text| && text[k] == nul && nul !in text[..k]
  {
    if text[0] == nul then 0 else
      var k := FirstNul(text[1..], nul);
      assert text[..k + 1] == [text[0]] + text[1..][..k];
      k + 1
  }

  lemma WideUpToNul(data: seq<Byte>, b: nat, wide: seq<Wide>, k: nat)
    requires k < |wide| && wide[k] == 0 && NulFree(wide[..k], 0)
    requires b + 2 * |wide| <= |data| && data[b..b + 2 * |wide|] == EncodeWide(wide)
    ensures data[b..b + 2 * k + 2] == EncodeWide(wide[..k]) + [0, 0]
    ensures WideExtent(data, b) == 2 * k + 2
  {
    assert EncodeWide(wide) == EncodeWide(wide[..k]) + EncodeWide(wide[k..]);
    SubSlice(data, b, EncodeWide(wide), EncodeWide(wide[..k]), EncodeWide(wide[k..]));
    WideExtentOfText(data, b, wide[..k], true);
  }

  lemma NarrowUpToNul(data: seq<Byte>, b: nat, narrow: seq<Byte>, k: nat)
    requires k < |narrow| && narrow[k] == 0 && NulFree(narrow[..k], 0)
    requires b + |narrow| <= |data| && data[b..b + |narrow|] == narrow
    ensures data[b..b + k + 1] == narrow[..k] + [0]
    ensures NarrowExtent(data, b) == k + 1
  {
    SubSlice(data, b, narrow, narrow[..k], narrow[k..]);
    NarrowExtentOfText(data, b, narrow[..k], true);
  }

  // ---------------------------------------------------------------------------------------------
  // One property.

  /** What a lookup of property i, asked for by the type of v, gives. */
  function ReadAt(r: EventRecord, i: nat, v: Value): Result<Parsed, ParseError>
    requires i < |r.props|
  {
    ParseLookup(r, RequestFor(v), WalkTo(r, i))
  }

  /** A property reached where its value was packed, or at the end of the record if that was cut off before. */
  predicate Reached(r: EventRecord, i: nat, v: Value, b: nat) {
    && r.Valid() && i < |r.props|
    && Shape(r.header32, r.props[i], v) && Holds(r.data, b, Field(v))
    && StartOf(r, i) == Some(Min(b, |r.data|))
  }

  /** A property of known size, decoded from exactly those bytes, as a value with or without its terminator. */
  lemma ReadExactly(r: EventRecord, i: nat, v: Value, off: nat, tail: seq<Byte>)
    requires i < |r.props| && StartOf(r, i) == Some(off) && r.userData + off != 0
    requires v.WellMade() && v.NulFreeText() && (tail == v.Terminator() || (v.IsString() && tail == []))
    requires var f := v.Content() + tail;
             off + |f| <= |r.data| && r.data[off..off + |f|] == f && PropertySize(r, off, r.props[i]) == |f|
    ensures ReadAt(r, i, v) == Ok(ViewOf(v))
    ensures StartOf(r, i + 1) == Some(off + |v.Content() + tail|)
  {
    hide PropertySize;
    hide Interpret;
    hide ParseLookup;
    hide WalkTo;
    hide StartOf;
    var f := v.Content() + tail;
    WalkStep(r, i, off, |f|);
    DecodeAtStart(r, i, off, f, RequestFor(v));
    assert r.data[off..][..|f|] == r.data[off..off + |f|];
    InterpretField(v, tail, r.data[off..]);
  }

  /** A surviving value reads back, and the next property is reached. */
  lemma FieldReadsBack(r: EventRecord, i: nat, v: Value, b: nat)
    requires Reached(r, i, v, b) && Survives(r, r.props[i], v, b)
    ensures ReadAt(r, i, v) == Ok(ViewOf(v))
    ensures StartOf(r, i + 1) == Some(Min(b + |Field(v)|, |r.data|))
  {
    hide PropertySize;
    hide ReadAt;
    hide StartOf;
    hide Holds;
    var p, m := r.props[i], |r.data|;
    if b + |Field(v)| <= m {
      WholeFieldSize(r, p, v, b);
      FieldIsNotEmpty(r.header32, p, v);
      ReadExactly(r, i, v, b, v.Terminator());
    } else if !v.EmptyText() {
      OpenFieldSize(r, p, v, b);
      assert v.Content() + [] == v.Content();
      ReadExactly(r, i, v, b, []);
    } else {
      PastFieldSize(r, p, v);
      assert v.Content() + [] == [] == r.data[m..m];
      ReadExactly(r, i, v, m, []);
    }
  }

  lemma FieldIsNotEmpty(header32: bool, p: PropertyInfo, v: Value)
    requires Shape(header32, p, v)
    ensures |Field(v)| > 0
  {
  }

  /** A value that does not survive does not read back. */
  lemma FieldIsLost(r: EventRecord, i: nat, v: Value, b: nat)
    requires Reached(r, i, v, b) && !Survives(r, r.props[i], v, b)
    ensures ReadAt(r, i, v) != Ok(ViewOf(v))
  {
    hide PropertySize;
    hide Interpret;
    hide Holds;
    var p, m := r.props[i], |r.data|;
    var off := Min(b, m);
    if !v.IsString() {
      FixedFieldSize(r, p, v, off);
      Overruns(r, i, off);
    } else if m - off < |v.Content()| {
      ShortField(r, i, v, off);
    } else if !v.NulFreeText() {
      NulCutsField(r, b, i, v);
    } else if b >= m {
      PastFieldSize(r, p, v);
      if r.tdhSize(p.name) > 0 {
        Overruns(r, i, off);
      } else {
        Unaddressed(r, i);
      }
    } else {
      HalfFieldSize(r, p, v, b);
      Overruns(r, i, off);
    }
  }

  lemma Overruns(r: EventRecord, i: nat, off: nat)
    requires i < |r.props| && StartOf(r, i) == Some(off)
    requires off + PropertySize(r, off, r.props[i]) > |r.data|
    ensures WalkTo(r, i) == OutOfRange
  {
    hide PropertySize;
  }

  /** A property of a record without address is taken for a missing one. */
  lemma Unaddressed(r: EventRecord, i: nat)
    requires i < |r.props| && r.userData == 0 && r.Valid()
    requires StartOf(r, i) == Some(|r.data|) && PropertySize(r, |r.data|, r.props[i]) == 0
    ensures forall request :: ParseLookup(r, request, WalkTo(r, i)) == Err(DoesNotExist)
  {
    hide PropertySize;
    assert |r.data| == 0;
    assert WalkTo(r, i) == Returned(Location(0, i, 0));
  }

  lemma ShortField(r: EventRecord, i: nat, v: Value, off: nat)
    requires i < |r.props| && v.IsString()
    requires StartOf(r, i) == Some(off) && |r.data| - off < |v.Content()|
    ensures ReadAt(r, i, v) != Ok(ViewOf(v))
  {
    hide PropertySize;
    var size := PropertySize(r, off, r.props[i]);
    if off + size <= |r.data| {
      ShortTextDiffers(v, r.data[off..off + size], r.data[off..]);
      hide Interpret;
      assert WalkTo(r, i) == Returned(Location(r.userData + off, i, size));
    }
  }

  /** A string with a NUL inside is read up to that NUL, so not as it was given. */
  lemma NulCutsField(r: EventRecord, b: nat, i: nat, v: Value)
    requires r.Valid() && i < |r.props| && Shape(r.header32, r.props[i], v) && !v.NulFreeText()
    requires Holds(r.data, b, Field(v)) && b + |v.Content()| <= |r.data|
    requires StartOf(r, i) == Some(b)
    ensures ReadAt(r, i, v) != Ok(ViewOf(v))
  {
    HoldsContent(r.data, b, v);
    HeldSlice(r.data, b, v.Content());
    match v {
      case Text(wide) => NulCutsWide(r, b, i, wide);
      case Ansi(narrow) => NulCutsNarrow(r, b, i, narrow);
    }
  }

  lemma NulCutsWide(r: EventRecord, b: nat, i: nat, wide: seq<Wide>)
    requires i < |r.props| && Shape(r.header32, r.props[i], Text(wide)) && !NulFree(wide, 0)
    requires b + 2 * |wide| <= |r.data| && r.data[b..b + 2 * |wide|] == EncodeWide(wide)
    requires StartOf(r, i) == Some(b) && r.userData + b != 0
    ensures ParseLookup(r, AsWide, WalkTo(r, i)) != Ok(WideText(wide))
  {
    hide WalkTo;
    hide Interpret;
    hide StartOf;
    hide ParseLookup;
    var k := FirstNul(wide, 0);
    WideUpToNul(r.data, b, wide, k);
    DecodeAtStart(r, i, b, EncodeWide(wide[..k]) + [0, 0], AsWide);
    DecodeText(wide[..k], [0, 0], r.data[b..]);
  }

  lemma NulCutsNarrow(r: EventRecord, b: nat, i: nat, narrow: seq<Byte>)
    requires i < |r.props| && Shape(r.header32, r.props[i], Ansi(narrow)) && !NulFree(narrow, 0)
    requires b + |narrow| <= |r.data| && r.data[b..b + |narrow|] == narrow
    requires StartOf(r, i) == Some(b) && r.userData + b != 0
    ensures ParseLookup(r, AsNarrow, WalkTo(r, i)) != Ok(NarrowText(narrow))
  {
    hide WalkTo;
    hide Interpret;
    hide StartOf;
    hide ParseLookup;
    var k := FirstNul(narrow, 0);
    NarrowUpToNul(r.data, b, narrow, k);
    DecodeAtStart(r, i, b, narrow[..k] + [0], AsNarrow);
    DecodeNarrow(narrow[..k], [0], r.data[b..]);
  }

  lemma ResolvesTo(r: EventRecord, i: nat, hint: nat)
    requires i < |r.props| && NameOccursOnce(r.props, r.props[i].name)
    ensures Resolve(r.props, r.props[i].name, hint) == i
  {
    ResolveIsComplete(r.props, r.props[i].name, hint);
  }

  // ---------------------------------------------------------------------------------------------
  // The whole record.

  /** A property reads back if every hint gives its value. */
  ghost predicate ReadsBack(r: EventRecord, name: string, v: Value) {
    forall hint: nat :: EagerParse(r, name, hint, RequestFor(v)) == Ok(ViewOf(v))
  }

  ghost predicate DistinctNames(props: seq<PropertyInfo>) {
    forall i, j :: 0 <= i < j < |props| ==> props[i].name != props[j].name
  }

  ghost predicate AllReadBack(r: EventRecord, vs: seq<Value>)
    requires |vs| == |r.props|
  {
    forall i :: 0 <= i < |vs| ==> ReadsBack(r, r.props[i].name, vs[i])
  }

  predicate AllSurvive(r: EventRecord, vs: seq<Value>, n: nat)
    requires n <= |vs| == |r.props|
  {
    forall i :: 0 <= i < n ==> Survives(r, r.props[i], vs[i], Begin(vs, i))
  }

  lemma DistinctOccurOnce(props: seq<PropertyInfo>, i: nat)
    requires DistinctNames(props) && i < |props|
    ensures NameOccursOnce(props, props[i].name)
  {
  }

  /** With distinct names every hint leads to the one walk. */
  lemma EveryHintWalks(r: EventRecord, i: nat, hint: nat, v: Value)
    requires i < |r.props| && DistinctNames(r.props)
    ensures EagerParse(r, r.props[i].name, hint, RequestFor(v)) == ReadAt(r, i, v)
  {
    DistinctOccurOnce(r.props, i);
    ResolvesTo(r, i, hint);
  }

  lemma ReadsBackByWalk(r: EventRecord, i: nat, v: Value)
    requires i < |r.props| && DistinctNames(r.props)
    ensures ReadsBack(r, r.props[i].name, v) <==> ReadAt(r, i, v) == Ok(ViewOf(v))
  {
    hide EagerParse;
    hide ReadAt;
    forall hint: nat { EveryHintWalks(r, i, hint, v); }
    EveryHintWalks(r, i, 0, v);
  }

  lemma WalkStarts(r: EventRecord)
    ensures StartOf(r, 0) == Some(0)
  {
  }

  lemma NothingBefore(vs: seq<Value>)
    ensures Begin(vs, 0) == 0
  {
  }

  /** Property i is reached where value i was packed, or at the end of the record. */
  predicate Follows(r: EventRecord, vs: seq<Value>, i: nat)
    requires i <= |vs| == |r.props|
  {
    StartOf(r, i) == Some(Min(Begin(vs, i), |r.data|))
  }

  lemma ReachedWhere(r: EventRecord, vs: seq<Value>, i: nat)
    requires LaidOut(r, vs) && i < |vs| && Follows(r, vs, i)
    ensures Reached(r, i, vs[i], Begin(vs, i))
    ensures Begin(vs, i + 1) == Begin(vs, i) + |Field(vs[i])|
  {
    hide StartOf;
    hide Shape;
    hide Flatten;
    hide Holds;
    hide Field;
    hide Begin;
    FieldAt(r.data, vs, i);
  }

  lemma FollowStep(r: EventRecord, vs: seq<Value>, i: nat)
    requires LaidOut(r, vs) && i < |vs| && Follows(r, vs, i) && Survives(r, r.props[i], vs[i], Begin(vs, i))
    ensures Follows(r, vs, i + 1) && ReadAt(r, i, vs[i]) == Ok(ViewOf(vs[i]))
  {
    hide Survives;
    hide Begin;
    hide StartOf;
    hide Reached;
    hide Field;
    hide ReadAt;
    ReachedWhere(r, vs, i);
    FieldReadsBack(r, i, vs[i], Begin(vs, i));
  }

  lemma LostStep(r: EventRecord, vs: seq<Value>, i: nat)
    requires LaidOut(r, vs) && i < |vs| && Follows(r, vs, i) && !Survives(r, r.props[i], vs[i], Begin(vs, i))
    ensures ReadAt(r, i, vs[i]) != Ok(ViewOf(vs[i]))
  {
    hide Survives;
    hide Begin;
    hide LaidOut;
    hide ReadAt;
    hide Reached;
    ReachedWhere(r, vs, i);
    FieldIsLost(r, i, vs[i], Begin(vs, i));
  }

  /** As long as everything survives, the walk follows the layout up to the end of the record and stays there. */
  lemma {:induction false} WalkFollows(r: EventRecord, vs: seq<Value>, i: nat)
    requires LaidOut(r, vs) && i <= |vs| && AllSurvive(r, vs, i)
    ensures Follows(r, vs, i)
  {
    if i == 0 {
      hide LaidOut;
      WalkStarts(r);
      NothingBefore(vs);
    } else {
      hide Follows;
      hide Survives;
      WalkFollows(r, vs, i - 1);
      FollowStep(r, vs, i - 1);
    }
  }

  ghost function FirstLost(r: EventRecord, vs: seq<Value>, n: nat): (i: nat)
    requires n <= |vs| == |r.props| && !AllSurvive(r, vs, n)
    ensures i < n && AllSurvive(r, vs, i) && !Survives(r, r.props[i], vs[i], Begin(vs, i))
  {
    if AllSurvive(r, vs, n - 1) then n - 1 else FirstLost(r, vs, n - 1)
  }

  /** A record gives back every value, under every hint, if and only if every value survives its end. */
  lemma RecordReadsBack(r: EventRecord, vs: seq<Value>)
    requires LaidOut(r, vs) && DistinctNames(r.props)
    ensures AllReadBack(r, vs) <==> AllSurvive(r, vs, |vs|)
  {
    hide ReadsBack;
    hide ReadAt;
    hide Survives;
    hide Follows;
    hide DistinctNames;
    if AllSurvive(r, vs, |vs|) {
      forall i | 0 <= i < |vs| ensures ReadsBack(r, r.props[i].name, vs[i]) {
        WalkFollows(r, vs, i);
        FollowStep(r, vs, i);
        ReadsBackByWalk(r, i, vs[i]);
      }
    } else {
      var i := FirstLost(r, vs, |vs|);
      WalkFollows(r, vs, i);
      LostStep(r, vs, i);
      ReadsBackByWalk(r, i, vs[i]);
    }
  }
}
