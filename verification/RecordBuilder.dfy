/** The encoder of synthetic event records, and when the parser reads back what it packed. */
module RecordBuilder {
  import opened Prelude
  import opened SizeProvider
  import ExtendedData

  /** A value handed to the builder. `Scalar` is any fixed-size C++ value as its bytes. */
  datatype Value =
    | Scalar(inType: InType, raw: seq<Byte>)
    | Bool(b: bool)
    | Text(wide: seq<Wide>)
    | Ansi(narrow: seq<Byte>)
    | Ptr(target: nat)
    | Blob(blob: seq<Byte>)
  {
    function Type(): InType {
      match this
      case Scalar(t, _) => t
      case Bool(_) => Boolean
      case Text(_) => UnicodeString
      case Ansi(_) => AnsiString
      case Ptr(_) => Pointer
      case Blob(_) => Binary
    }

    predicate IsString() {
      Text? || Ansi?
    }

    /** The value's bytes without any terminator. */
    function Content(): seq<Byte> {
      match this
      case Scalar(_, raw) => raw
      case Bool(b) => ToLittleEndian(if b then 1 else 0, 4)
      case Text(wide) => EncodeWide(wide)
      case Ansi(narrow) => narrow
      case Ptr(target) => ToLittleEndian(target, 8)
      case Blob(blob) => blob
    }

    /** The NUL a string is closed with. */
    function Terminator(): seq<Byte> {
      if Text? then [0, 0] else if Ansi? then [0] else []
    }

    predicate NulFreeText() {
      match this
      case Text(wide) => NulFree(wide, 0)
      case Ansi(narrow) => NulFree(narrow, 0)
      case _ => true
    }

    predicate EmptyText() {
      IsString() && Content() == []
    }

    /** The types the C++ overloads can produce: strings and blobs have constructors of their own. */
    predicate WellMade() {
      match this
      case Scalar(t, _) => !t.UnicodeString? && !t.AnsiString? && !t.Pointer? && !t.Boolean? && !t.Binary?
      case Ptr(target) => target < U64
      case _ => true
    }
  }

  datatype Thunk = Thunk(name: string, inType: InType, bytes: seq<Byte>)

  function ThunkOf(name: string, value: Value): Thunk {
    Thunk(name, value.Type(), value.Content() + value.Terminator())
  }

  /** The bytes of a value, per type: numbers least significant byte first, a flag as a 32-bit 1 or 0, and a string
      unit by unit with one NUL unit behind it. */
  predicate AreBytesOf(bytes: seq<Byte>, value: Value) {
    match value
    case Scalar(_, raw) => bytes == raw
    case Bool(b) => bytes == [if b then 1 else 0, 0, 0, 0]
    case Text(wide) =>
      && |bytes| == 2 * |wide| + 2 && bytes[2 * |wide|] == bytes[2 * |wide| + 1] == 0
      && (forall i {:trigger wide[i]} :: 0 <= i < |wide| ==>
            var low: int, high: int := bytes[2 * i], bytes[2 * i + 1]; low + 256 * high == wide[i])
    case Ansi(narrow) => bytes == narrow + [0]
    case Ptr(target) => |bytes| == 8 && forall k :: 0 <= k < 8 ==> bytes[k] == target / Pow256(k) % 256
    case Blob(blob) => bytes == blob
  }

  lemma WideBytes(wide: seq<Wide>)
    ensures AreBytesOf(EncodeWide(wide) + [0, 0], Text(wide))
  {
    hide EncodeWide;
    var bytes, units := EncodeWide(wide) + [0, 0], EncodeWide(wide);
    forall i | 0 <= i < |wide|
      ensures var low: int, high: int := bytes[2 * i], bytes[2 * i + 1]; low + 256 * high == wide[i]
    {
      WideUnit(wide, i);
      assert bytes[2 * i] == units[2 * i] && bytes[2 * i + 1] == units[2 * i + 1];
    }
  }

  lemma PointerBytes(target: nat)
    ensures AreBytesOf(ToLittleEndian(target, 8), Ptr(target))
  {
    forall k | 0 <= k < 8 ensures ToLittleEndian(target, 8)[k] == target / Pow256(k) % 256 {
      LittleEndianDigit(target, 8, k);
    }
    hide ToLittleEndian;
  }

  lemma FlagBytes(b: bool)
    ensures AreBytesOf(ToLittleEndian(if b then 1 else 0, 4), Bool(b))
  {
    assert ToLittleEndian(0, 3) == [0] + ToLittleEndian(0, 2) == [0, 0, 0];
  }

  lemma ThunkBytes(name: string, value: Value)
    ensures AreBytesOf(ThunkOf(name, value).bytes, value)
  {
    hide AreBytesOf;
    var bytes := ThunkOf(name, value).bytes;
    match value {
      case Bool(b) =>
        FlagBytes(b);
        assert bytes == ToLittleEndian(if b then 1 else 0, 4);
      case Ptr(target) =>
        PointerBytes(target);
        assert bytes == ToLittleEndian(target, 8);
      case Text(wide) => WideBytes(wide);
      case _ => PlainBytes(value);
    }
  }

  lemma PlainBytes(value: Value)
    requires value.Scalar? || value.Ansi? || value.Blob?
    ensures AreBytesOf(value.Content() + value.Terminator(), value)
  {
  }

  /** record_property_thunk's constructors; strings get their terminator byte by byte. */
  method MakeThunk(name: string, value: Value) returns (thunk: Thunk)
    ensures thunk == ThunkOf(name, value)
    ensures thunk.name == name && AreBytesOf(thunk.bytes, value)
  {
    ThunkBytes(name, value);
    hide AreBytesOf;
    var bytes := value.Content();
    if value.IsString() {
      var width := if value.Text? then 2 else 1;
      for i := 0 to width
        invariant bytes == value.Content() + value.Terminator()[..i]
      {
        bytes := bytes + [0];
      }
    }
    thunk := Thunk(name, value.Type(), bytes);
  }

  /** sizeof the zero filler of a property nobody supplied; None where the filler throws. */
  function HowManyBytesToFill(t: InType): Option<nat> {
    match t
    case UnicodeString => Some(2)
    case AnsiString | Int8 | UInt8 | Binary => Some(1)
    case Int16 | UInt16 => Some(2)
    case Int32 | UInt32 | Float | Boolean | HexInt32 => Some(4)
    case Int64 | UInt64 | Double | Pointer | FileTime | Sid | HexInt64 => Some(8)
    case Guid | SystemTime => Some(16)
    case NullType | UnlistedType => None
  }

  function Zeros(n: nat): seq<Byte> {
    seq(n, _ => 0)
  }

  datatype PackError = WrongType(name: string) | CannotFill | NotAllFilled(names: seq<string>)

  datatype Packed = Packed(bytes: seq<Byte>, unfilled: seq<string>)

  // ---------------------------------------------------------------------------------------------
  // pack_impl, field by field.

  function FindThunk(thunks: seq<Thunk>, name: string): Option<Thunk> {
    if thunks == [] then None
    else if thunks[0].name == name then Some(thunks[0])
    else FindThunk(thunks[1..], name)
  }

  function TrimOf(p: PropertyInfo): nat {
    if p.inType.UnicodeString? then 2 else if p.inType.AnsiString? then 1 else 0
  }

  function PackField(p: PropertyInfo, thunks: seq<Thunk>): Result<(seq<Byte>, bool), PackError> {
    match FindThunk(thunks, p.name)
    case Some(t) => if t.inType != p.inType then Err(WrongType(p.name)) else Ok((t.bytes, true))
    case None =>
      match HowManyBytesToFill(p.inType)
      case Some(n) => Ok((Zeros(n), false))
      case None => Err(CannotFill)
  }

  /** The packed fields before trimming, the properties left unfilled, and how much the last field may lose. */
  datatype Draft = Draft(bytes: seq<Byte>, unfilled: seq<string>, trim: nat)

  function PackDraft(props: seq<PropertyInfo>, thunks: seq<Thunk>): Result<Draft, PackError> {
    if props == [] then Ok(Draft([], [], 0))
    else
      var p := props[|props| - 1];
      match PackDraft(props[..|props| - 1], thunks)
      case Err(e) => Err(e)
      case Ok(d) =>
        match PackField(p, thunks)
        case Err(e) => Err(e)
        case Ok((bytes, filled)) =>
          Ok(Draft(d.bytes + bytes, if filled then d.unfilled else d.unfilled + [p.name],
                   if filled then TrimOf(p) else 0))
  }

  method FindIf(thunks: seq<Thunk>, name: string) returns (found: Option<Thunk>)
    ensures found == FindThunk(thunks, name)
    ensures found.None? <==> forall k :: 0 <= k < |thunks| ==> thunks[k].name != name
    ensures found.Some? ==> exists i :: 0 <= i < |thunks| && thunks[i] == found.value && thunks[i].name == name
                                        && forall k :: 0 <= k < i ==> thunks[k].name != name
  {
    var i := 0;
    while i < |thunks|
      invariant i <= |thunks| && forall k :: 0 <= k < i ==> thunks[k].name != name
      invariant FindThunk(thunks, name) == FindThunk(thunks[i..], name)
    {
      if thunks[i].name == name {
        return Some(thunks[i]);
      }
      i := i + 1;
    }
    return None;
  }

  predicate StringsTerminated(thunks: seq<Thunk>) {
    forall t :: t in thunks ==> |t.bytes| >= (if t.inType.UnicodeString? then 2 else if t.inType.AnsiString? then 1
      else 0)
  }

  lemma {:induction false} FoundThunkIsOne(thunks: seq<Thunk>, name: string)
    ensures FindThunk(thunks, name).Some? ==> FindThunk(thunks, name).value in thunks
  {
    if thunks != [] && thunks[0].name != name {
      FoundThunkIsOne(thunks[1..], name);
    }
  }

  function Trimmed(d: Draft, trim: bool): Packed {
    Packed(if trim && d.trim <= |d.bytes| then d.bytes[..|d.bytes| - d.trim] else d.bytes, d.unfilled)
  }

  function PackSpec(props: seq<PropertyInfo>, thunks: seq<Thunk>, trim: bool): Result<Packed, PackError> {
    match PackDraft(props, thunks)
    case Err(e) => Err(e)
    case Ok(d) => Ok(Trimmed(d, trim))
  }

  method PackImpl(props: seq<PropertyInfo>, thunks: seq<Thunk>, trim: bool) returns (result: Result<Packed, PackError>)
    requires StringsTerminated(thunks)
    ensures result == PackSpec(props, thunks, trim)
  {
    var bytes, unfilled, bytesToTrim := [], [], 0;
    var i := 0;
    while i < |props|
      invariant i <= |props|
      invariant PackDraft(props[..i], thunks) == Ok(Draft(bytes, unfilled, bytesToTrim))
      invariant bytesToTrim <= |bytes|
    {
      var p := props[i];
      assert props[..i + 1][..i] == props[..i] && props[..i + 1][i] == p;
      bytesToTrim := 0;
      var found := FindIf(thunks, p.name);
      match found {
        case Some(t) =>
          FoundThunkIsOne(thunks, p.name);
          if t.inType != p.inType {
            PackErrorStays(props, thunks, i + 1);
            return Err(WrongType(p.name));
          }
          if p.inType == UnicodeString {
            bytesToTrim := 2;
          } else if p.inType == AnsiString {
            bytesToTrim := 1;
          }
          bytes := bytes + t.bytes;
        case None =>
          unfilled := unfilled + [p.name];
          var n := HowManyBytesToFill(p.inType);
          if n == None {
            PackErrorStays(props, thunks, i + 1);
            return Err(CannotFill);
          }
          bytes := bytes + Zeros(n.value);
      }
      i := i + 1;
    }
    assert props[..i] == props;
    if trim {
      bytes := bytes[..|bytes| - bytesToTrim];
    }
    assert PackDraft(props, thunks).Ok?;
    result := Ok(Packed(bytes, unfilled));
  }

  lemma {:induction false} PackErrorStays(props: seq<PropertyInfo>, thunks: seq<Thunk>, i: nat)
    requires i <= |props|
    requires PackDraft(props[..i], thunks).Err?
    ensures PackDraft(props, thunks) == PackDraft(props[..i], thunks)
    decreases |props|
  {
    if i == |props| {
      assert props[..i] == props;
    } else {
      var front := props[..|props| - 1];
      assert front[..i] == props[..i];
      PackErrorStays(front, thunks, i);
    }
  }

  lemma {:induction false} UnfilledAreTheMissing(props: seq<PropertyInfo>, thunks: seq<Thunk>)
    requires PackDraft(props, thunks).Ok?
    ensures PackDraft(props, thunks).value.unfilled == [] <==>
        forall p :: p in props ==> FindThunk(thunks, p.name).Some?
  {
    if props != [] {
      var front, last := props[..|props| - 1], props[|props| - 1];
      UnfilledAreTheMissing(front, thunks);
      assert props == front + [last];
    }
  }

  /** The positions of the properties nobody supplied, in schema order. */
  function Missing(props: seq<PropertyInfo>, thunks: seq<Thunk>): (ns: seq<nat>)
    ensures forall i, j :: 0 <= i < j < |ns| ==> ns[i] < ns[j]
    ensures forall i :: 0 <= i < |ns| ==> ns[i] < |props| && FindThunk(thunks, props[ns[i]].name).None?
    ensures forall n :: 0 <= n < |props| && FindThunk(thunks, props[n].name).None? ==> n in ns
  {
    if props == [] then []
    else
      var n := |props| - 1;
      var front := Missing(props[..n], thunks);
      if FindThunk(thunks, props[n].name).Some? then front
      else
        assert (front + [n])[|front|] == n;
        assert forall m :: m in front ==> m in front + [n];
        front + [n]
  }

  /** The names reported are those of these properties, in this order. */
  lemma {:induction false} UnfilledInOrder(props: seq<PropertyInfo>, thunks: seq<Thunk>)
    requires PackDraft(props, thunks).Ok?
    ensures var unfilled, ns := PackDraft(props, thunks).value.unfilled, Missing(props, thunks);
            |unfilled| == |ns| && forall i :: 0 <= i < |ns| ==> unfilled[i] == props[ns[i]].name
  {
    if props != [] {
      UnfilledInOrder(props[..|props| - 1], thunks);
    }
  }

  /** A property can be packed: by a value of its type, or by a filler if its type has one. */
  predicate CanPack(p: PropertyInfo, thunks: seq<Thunk>) {
    match FindThunk(thunks, p.name)
    case Some(t) => t.inType == p.inType
    case None => !p.inType.NullType? && !p.inType.UnlistedType?
  }

  /** A record can be packed exactly when every property can. */
  lemma {:induction false} PackingSucceeds(props: seq<PropertyInfo>, thunks: seq<Thunk>, trim: bool)
    ensures PackSpec(props, thunks, trim).Ok? <==> forall i :: 0 <= i < |props| ==> CanPack(props[i], thunks)
  {
    if props != [] {
      var n := |props| - 1;
      PackingSucceeds(props[..n], thunks, trim);
      assert CanPack(props[n], thunks) <==> PackField(props[n], thunks).Ok?;
      hide CanPack;
      hide PackField;
      forall i | 0 <= i < n ensures props[..n][i] == props[i] {
      }
    }
  }

  lemma LastFails(props: seq<PropertyInfo>, thunks: seq<Thunk>)
    requires props != [] && PackDraft(props[..|props| - 1], thunks).Ok? && !CanPack(props[|props| - 1], thunks)
    ensures var name := props[|props| - 1].name;
            PackDraft(props, thunks) == Err(if FindThunk(thunks, name).Some? then WrongType(name) else CannotFill)
  {
    hide FindThunk;
  }

  /** Otherwise the error is that of the first property that cannot: a value of another type, or no filler. */
  lemma PackingFails(props: seq<PropertyInfo>, thunks: seq<Thunk>, trim: bool, i: nat)
    requires i < |props| && !CanPack(props[i], thunks)
    requires forall j :: 0 <= j < i ==> CanPack(props[j], thunks)
    ensures PackSpec(props, thunks, trim) ==
            Err(if FindThunk(thunks, props[i].name).Some? then WrongType(props[i].name) else CannotFill)
  {
    hide PackDraft;
    hide CanPack;
    hide FindThunk;
    var front := props[..i + 1];
    assert front[..i] == props[..i] && front[i] == props[i];
    PackingSucceeds(props[..i], thunks, trim);
    LastFails(front, thunks);
    PackErrorStays(props, thunks, i + 1);
  }

  /** A synth_record: the blob, and the extended data with its 16-bit count. */
  datatype SynthRecord = SynthRecord(userData: seq<Byte>, extendedData: seq<Byte>, extendedCount: nat)

  /** The extended data buffer at address `base`; no items, no buffer. */
  method PackExtended(items: seq<ExtendedData.Item>, base: nat) returns (bytes: seq<Byte>)
    requires items != [] ==> ExtendedData.Packable(items, base)
    ensures bytes == if items == [] then [] else ExtendedData.Layout(items, base)
  {
    if items == [] {
      return [];
    }
    var buffer := ExtendedData.Pack(items, base);
    bytes := buffer[..];
  }

  /** pack: refuses a record with unfilled properties, names them, and attaches the extended data. */
  method Pack(props: seq<PropertyInfo>, thunks: seq<Thunk>, trim: bool, items: seq<ExtendedData.Item>, base: nat)
    returns (result: Result<SynthRecord, PackError>)
    requires StringsTerminated(thunks) && (items != [] ==> ExtendedData.Packable(items, base))
    ensures result.Ok? <==> PackSpec(props, thunks, trim).Ok? && forall p :: p in props ==>
              FindThunk(thunks, p.name).Some?
    ensures result.Ok? ==>
              && result.value.userData == PackSpec(props, thunks, trim).value.bytes
              && result.value.extendedData == (if items == [] then [] else ExtendedData.Layout(items, base))
              && result.value.extendedCount == |items| % U16
    ensures result.Err? ==> result.error == match PackSpec(props, thunks, trim)
                                            case Err(e) => e
                                            case Ok(p) => NotAllFilled(p.unfilled)
  {
    hide ExtendedData.Layout;
    var packed := PackImpl(props, thunks, trim);
    match packed {
      case Err(e) => return Err(e);
      case Ok(p) =>
        UnfilledAreTheMissing(props, thunks);
        if p.unfilled != [] {
          return Err(NotAllFilled(p.unfilled));
        }
        var extended := PackExtended(items, base);
        return Ok(SynthRecord(p.bytes, extended, |items| % U16));
    }
  }

  /** pack_incomplete: the same without the refusal. */
  method PackIncomplete(props: seq<PropertyInfo>, thunks: seq<Thunk>, trim: bool, items: seq<ExtendedData.Item>,
      base: nat)
    returns (result: Result<SynthRecord, PackError>)
    requires StringsTerminated(thunks) && (items != [] ==> ExtendedData.Packable(items, base))
    ensures result.Ok? <==> PackSpec(props, thunks, trim).Ok?
    ensures result.Ok? ==>
              && result.value.userData == PackSpec(props, thunks, trim).value.bytes
              && result.value.extendedData == (if items == [] then [] else ExtendedData.Layout(items, base))
              && result.value.extendedCount == |items| % U16
    ensures result.Err? ==> result.error == PackSpec(props, thunks, trim).error
  {
    hide ExtendedData.Layout;
    var packed := PackImpl(props, thunks, trim);
    match packed {
      case Err(e) => return Err(e);
      case Ok(p) =>
        var extended := PackExtended(items, base);
        return Ok(SynthRecord(p.bytes, extended, |items| % U16));
    }
  }
}
