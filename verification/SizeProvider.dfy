/** Event records and the size of one property, as the ETW parser sees them. */
module SizeProvider {
  import opened Prelude

  datatype InType =
    | NullType | UnicodeString | AnsiString
    | Int8 | UInt8 | Int16 | UInt16 | Int32 | UInt32 | Int64 | UInt64
    | Float | Double | Boolean | Binary | Guid | Pointer
    | FileTime | SystemTime | Sid | HexInt32 | HexInt64
    | UnlistedType

  datatype OutType = StringOut | OtherOut

  /** One EVENT_PROPERTY_INFO. `paramLength` is its PropertyParamLength flag,
      `otherFlags` says whether any other flag is set. */
  datatype PropertyInfo = PropertyInfo(
    name: string, inType: InType, outType: OutType, length: nat, paramLength: bool, otherFlags: bool)

  /** An EVENT_RECORD with its schema. `userData` is the address of the blob `data`;
      `tdhSize` is what TdhGetPropertySize answers for a property name. */
  datatype EventRecord = EventRecord(
    userData: nat, data: seq<Byte>, header32: bool, props: seq<PropertyInfo>, tdhSize: string -> nat)
  {
    /** A blob that holds a byte does not sit at the null address. */
    predicate Valid() {
      |data| > 0 ==> userData > 0
    }
  }

  /** Bytes from `off` up to and including the first NUL code unit, or up to the end of the record.
      The scan moves two bytes at a time, so an odd tail takes it one byte past the end. */
  function WideExtent(data: seq<Byte>, off: nat): nat
    decreases |data| - off
  {
    if off >= |data| then 0
    else if off + 1 == |data| then 2
    else if data[off] == 0 && data[off + 1] == 0 then 2
    else 2 + WideExtent(data, off + 2)
  }

  function NarrowExtent(data: seq<Byte>, off: nat): nat
    decreases |data| - off
  {
    if off >= |data| then 0
    else if data[off] == 0 then 1
    else 1 + NarrowExtent(data, off + 1)
  }

  function HeuristicSize(r: EventRecord, off: nat, p: PropertyInfo): nat {
    if p.outType.StringOut? && p.inType.UnicodeString? then WideExtent(r.data, off)
    else if p.outType.StringOut? && p.inType.AnsiString? then NarrowExtent(r.data, off)
    else 0
  }

  /** The size of property p when it starts `off` bytes into the record. */
  function PropertySize(r: EventRecord, off: nat, p: PropertyInfo): nat {
    if !p.paramLength && p.length > 0 then
      if p.inType.Pointer? then (if r.header32 then 4 else 8) else p.length
    else
      var guess := if !p.paramLength && !p.otherFlags then HeuristicSize(r, off, p) else 0;
      if guess == 0 then r.tdhSize(p.name) else guess
  }

  method GetHeuristicSize(r: EventRecord, off: nat, p: PropertyInfo) returns (size: nat)
    ensures size == HeuristicSize(r, off, p)
  {
    size := 0;
    if p.outType == StringOut {
      if p.inType == UnicodeString {
        var at := off;
        var stop := false;
        while at < |r.data| && !stop
          invariant at >= off
          invariant WideExtent(r.data, off) == at - off + if stop then 0 else WideExtent(r.data, at)
          decreases |r.data| - at, if stop then 0 else 1
        {
          // With one byte left the unit straddles the end of the record: whatever is read, the scan is over.
          stop := at + 1 < |r.data| && r.data[at] == 0 && r.data[at + 1] == 0;
          at := at + 2;
        }
        size := at - off;
      } else if p.inType == AnsiString {
        var at := off;
        var stop := false;
        while at < |r.data| && !stop
          invariant at >= off
          invariant NarrowExtent(r.data, off) == at - off + if stop then 0 else NarrowExtent(r.data, at)
          decreases |r.data| - at, if stop then 0 else 1
        {
          stop := r.data[at] == 0;
          at := at + 1;
        }
        size := at - off;
      }
    }
  }

  // ---------------------------------------------------------------------------------------------
  // What decides a size: the schema, the text itself, or TDH.

  /** The schema gives p's length. */
  predicate Declared(p: PropertyInfo) {
    !p.paramLength && p.length > 0
  }

  /** p is a string of unknown length whose end the provider looks for itself. */
  predicate Scanned(p: PropertyInfo) {
    && p.outType.StringOut? && (p.inType.UnicodeString? || p.inType.AnsiString?)
    && p.length == 0 && !p.paramLength && !p.otherFlags
  }

  predicate WideNul(data: seq<Byte>, at: nat) {
    at + 1 < |data| && data[at] == 0 && data[at + 1] == 0
  }

  /** `size` bytes take in everything up to the first NUL unit; without one they reach the end of the record. */
  predicate WideEnds(data: seq<Byte>, off: nat, size: nat) {
    && size % 2 == 0 && size >= 2
    && (forall i :: 0 <= i < size / 2 - 1 ==> !WideNul(data, off + 2 * i))
    && (WideNul(data, off + size - 2) || |data| <= off + size <= |data| + 1)
  }

  predicate NarrowEnds(data: seq<Byte>, off: nat, size: nat) {
    && 1 <= size && off + size <= |data|
    && (forall i :: off <= i < off + size - 1 ==> data[i] != 0)
    && (data[off + size - 1] == 0 || off + size == |data|)
  }

  lemma {:induction false} WideExtentIs(data: seq<Byte>, off: nat)
    requires off < |data|
    ensures WideEnds(data, off, WideExtent(data, off))
    decreases |data| - off
  {
    if off + 2 < |data| && !WideNul(data, off) {
      WideExtentIs(data, off + 2);
      var rest := WideExtent(data, off + 2);
      forall i | 0 <= i < (rest + 2) / 2 - 1 ensures !WideNul(data, off + 2 * i) {
        assert i > 0 ==> !WideNul(data, off + 2 + 2 * (i - 1));
      }
    }
  }

  lemma {:induction false} NarrowExtentIs(data: seq<Byte>, off: nat)
    requires off < |data|
    ensures NarrowEnds(data, off, NarrowExtent(data, off))
    decreases |data| - off
  {
    if off + 1 < |data| && data[off] != 0 {
      NarrowExtentIs(data, off + 1);
    }
  }

  /** At most one size takes in everything up to the terminator. */
  lemma OneSizeEnds(data: seq<Byte>, off: nat, a: nat, b: nat)
    requires || (WideEnds(data, off, a) && WideEnds(data, off, b))
             || (NarrowEnds(data, off, a) && NarrowEnds(data, off, b))
    ensures a == b
  {
    assert WideEnds(data, off, a) ==> off + a - 2 == off + 2 * (a / 2 - 1);
    assert WideEnds(data, off, b) ==> off + b - 2 == off + 2 * (b / 2 - 1);
  }

  /** The sources of a size, in terms of the property and the bytes alone. */
  predicate IsSize(r: EventRecord, off: nat, p: PropertyInfo, size: nat) {
    if Declared(p) then size == if p.inType.Pointer? then (if r.header32 then 4 else 8) else p.length
    else if !Scanned(p) || off >= |r.data| then size == r.tdhSize(p.name)
    else if p.inType.UnicodeString? then WideEnds(r.data, off, size)
    else NarrowEnds(r.data, off, size)
  }

  lemma PropertySizeIs(r: EventRecord, off: nat, p: PropertyInfo)
    ensures IsSize(r, off, p, PropertySize(r, off, p))
  {
    if !Declared(p) && Scanned(p) && off < |r.data| {
      if p.inType.UnicodeString? { WideExtentIs(r.data, off); } else { NarrowExtentIs(r.data, off); }
    }
  }

  /** The schema's length comes first, with the header's width for a pointer; then the scan for a terminator, for
      strings without length or flags that start inside the record; and TDH for everything else. */
  method GetPropertySize(r: EventRecord, off: nat, p: PropertyInfo) returns (size: nat)
    ensures size == PropertySize(r, off, p)
    ensures Declared(p) ==> size == if p.inType.Pointer? then (if r.header32 then 4 else 8) else p.length
    ensures !Declared(p) && (!Scanned(p) || off >= |r.data|) ==> size == r.tdhSize(p.name)
    ensures Scanned(p) && off < |r.data| ==>
              if p.inType.UnicodeString? then WideEnds(r.data, off, size) else NarrowEnds(r.data, off, size)
  {
    PropertySizeIs(r, off, p);
    if !p.paramLength && p.length > 0 {
      if p.inType == Pointer {
        return if r.header32 then 4 else 8;
      }
      return p.length;
    }
    size := 0;
    if !p.paramLength && !p.otherFlags {
      if p.length > 0 {
        size := p.length;
      } else {
        size := GetHeuristicSize(r, off, p);
      }
    }
    if size == 0 {
      size := r.tdhSize(p.name);
    }
  }

  /** The bytes of a wide string, two per code unit, low byte first. */
  function EncodeWide(text: seq<Wide>): (bytes: seq<Byte>)
    ensures |bytes| == 2 * |text|
  {
    seq(2 * |text|, i requires 0 <= i < 2 * |text| => if i % 2 == 0 then text[i / 2] % 256 else text[i / 2] / 256)
  }

  /** The low byte of each unit comes first. */
  lemma WideUnit(text: seq<Wide>, i: nat)
    requires i < |text|
    ensures var low: int, high: int := EncodeWide(text)[2 * i], EncodeWide(text)[2 * i + 1];
            low + 256 * high == text[i]
  {
  }

  predicate NulFree<T(==)>(text: seq<T>, nul: T) {
    nul !in text
  }

  /** The scan over an encoded NUL-free text consumes the text and the terminator behind it;
      without a terminator it consumes the text and stops at the end of the record. */
  lemma {:induction false} WideExtentOfText(data: seq<Byte>, off: nat, text: seq<Wide>, terminated: bool)
    requires NulFree(text, 0)
    requires off + 2 * |text| <= |data|
    requires data[off..off + 2 * |text|] == EncodeWide(text)
    requires if terminated then off + 2 * |text| + 2 <= |data|
        && data[off + 2 * |text|] == data[off + 2 * |text| + 1] == 0
             else off + 2 * |text| == |data|
    ensures WideExtent(data, off) == 2 * |text| + if terminated then 2 else 0
    decreases |text|
  {
    if text == [] {
    } else {
      var bytes := data[off..off + 2 * |text|];
      assert data[off] == bytes[0] == text[0] % 256 && data[off + 1] == bytes[1] == text[0] / 256;
      assert text[0] != 0;
      assert data[off + 2..off + 2 + 2 * |text[1..]|] == EncodeWide(text[1..]) by {
        assert bytes[2..] == EncodeWide(text[1..]);
      }
      WideExtentOfText(data, off + 2, text[1..], terminated);
    }
  }

  lemma {:induction false} NarrowExtentOfText(data: seq<Byte>, off: nat, text: seq<Byte>, terminated: bool)
    requires NulFree(text, 0)
    requires off + |text| <= |data|
    requires data[off..off + |text|] == text
    requires if terminated then off + |text| < |data| && data[off + |text|] == 0
             else off + |text| == |data|
    ensures NarrowExtent(data, off) == |text| + if terminated then 1 else 0
    decreases |text|
  {
    if text == [] {
    } else {
      assert data[off] == data[off..off + |text|][0] == text[0];
      assert data[off + 1..off + 1 + |text[1..]|] == data[off..off + |text|][1..] == text[1..];
      NarrowExtentOfText(data, off + 1, text[1..], terminated);
    }
  }
}
