/** Extended data items: one buffer of descriptors with absolute pointers into the data behind them. */
module ExtendedData {
  import opened Prelude
  import Guid

  datatype Item = Item(extType: nat, bytes: seq<Byte>)

  /** sizeof(EVENT_HEADER_EXTENDED_DATA_ITEM): Reserved1, ExtType, Linkage, DataSize (16 bits each),
      DataPtr (64 bits). */
  const DESCRIPTOR_SIZE := 16

  const PROCESS_START_KEY := 0x000B
  const CONTAINER_ID := 16

  function StartKeyItem(key: nat): Item {
    Item(PROCESS_START_KEY, ToLittleEndian(key, 8))
  }

  /** Characters cut down to bytes, and bytes read as characters. */
  function ToBytes(s: string): (bytes: seq<Byte>)
    ensures |bytes| == |s|
  {
    seq(|s|, i requires 0 <= i < |s| => s[i] as int % 256)
  }

  function FromBytes(bytes: seq<Byte>): (s: string)
    ensures |s| == |bytes|
  {
    seq(|bytes|, i requires 0 <= i < |bytes| => (bytes[i] as int) as char)
  }

  /** The text of StringFromGUID2 without its braces and without a NUL. */
  function ContainerIdItem(g: Guid.Guid): Item
    requires g.Valid()
  {
    Item(CONTAINER_ID, ToBytes(Guid.Upper(Guid.Print(g))))
  }

  function Descriptor(item: Item, pointer: nat): (bytes: seq<Byte>)
    ensures |bytes| == DESCRIPTOR_SIZE
  {
    [0, 0] + ToLittleEndian(item.extType, 2) + [0, 0] + ToLittleEndian(|item.bytes|, 2) + ToLittleEndian(pointer, 8)
  }

  function Contents(items: seq<Item>): (parts: seq<seq<Byte>>)
    ensures |parts| == |items|
  {
    seq(|items|, i requires 0 <= i < |items| => items[i].bytes)
  }

  /** Where the data of item i starts, counted from the start of the buffer. */
  function DataOffset(items: seq<Item>, i: nat): nat
    requires i <= |items|
  {
    DESCRIPTOR_SIZE * |items| + |Flatten(Contents(items)[..i])|
  }

  function Descriptors(items: seq<Item>, base: nat): (parts: seq<seq<Byte>>)
    ensures |parts| == |items|
  {
    seq(|items|, i requires 0 <= i < |items| => Descriptor(items[i], base + DataOffset(items, i)))
  }

  /** The packed buffer when it is allocated at address `base`. */
  function Layout(items: seq<Item>, base: nat): seq<Byte> {
    Flatten(Descriptors(items, base)) + Flatten(Contents(items))
  }

  /** What the builder asserts of every item, and an address space that holds the buffer. */
  predicate Packable(items: seq<Item>, base: nat) {
    && base > 0 && base + DataOffset(items, |items|) < U64
    && forall item :: item in items ==> item.extType < U16 && |item.bytes| < U16
  }

  lemma {:induction false} EqualParts(parts: seq<seq<Byte>>)
    requires forall p :: p in parts ==> |p| == DESCRIPTOR_SIZE
    ensures |Flatten(parts)| == DESCRIPTOR_SIZE * |parts|
  {
    if parts != [] {
      var last := parts[|parts| - 1];
      assert last in parts;
      EqualParts(parts[..|parts| - 1]);
    }
  }

  lemma SliceOf<T>(whole: seq<T>, at: nat, part: seq<T>, from: nat, to: nat)
    requires at + |part| <= |whole| && whole[at..at + |part|] == part
    requires from <= to <= |part|
    ensures whole[at + from..at + to] == part[from..to]
  {
    forall k | from <= k < to ensures whole[at + k] == part[k] {
      assert whole[at..at + |part|][k] == whole[at + k];
    }
    assert |whole[at + from..at + to]| == |part[from..to]|;
    forall k | 0 <= k < to - from ensures whole[at + from..at + to][k] == part[from..to][k] {
      assert whole[at + (from + k)] == part[from + k];
    }
  }

  method WriteAt(a: array<Byte>, at: nat, bytes: seq<Byte>)
    requires at + |bytes| <= a.Length
    modifies a
    ensures a[..][..at] == old(a[..])[..at]
    ensures a[..][at..at + |bytes|] == bytes
    ensures a[..][at + |bytes|..] == old(a[..])[at + |bytes|..]
  {
    for i := 0 to |bytes|
      invariant a[..][..at] == old(a[..])[..at]
      invariant a[..][at..at + i] == bytes[..i]
      invariant a[..][at + i..] == old(a[..])[at + i..]
    {
      a[at + i] := bytes[i];
    }
  }

  lemma DescriptorsPrefix(items: seq<Item>, base: nat, i: nat)
    requires i <= |items|
    ensures |Flatten(Descriptors(items, base)[..i])| == DESCRIPTOR_SIZE * i
    ensures i < |items| ==> Flatten(Descriptors(items, base)[..i + 1]) ==
                            Flatten(Descriptors(items, base)[..i]) + Descriptor(items[i], base + DataOffset(items, i))
  {
    hide Descriptor;
    hide DataOffset;
    var d := Descriptors(items, base);
    EqualParts(d[..i]);
    if i < |items| {
      FlattenPart(d, i);
    }
  }

  lemma ContentsPrefix(items: seq<Item>, i: nat)
    requires i < |items|
    ensures Flatten(Contents(items)[..i + 1]) == Flatten(Contents(items)[..i]) + items[i].bytes
    ensures DataOffset(items, i) + |items[i].bytes| == DataOffset(items, i + 1) <= DataOffset(items, |items|)
  {
    FlattenPart(Contents(items), i);
    assert Contents(items)[..|items|] == Contents(items);
  }

  /** pack: the buffer is fresh, exactly large enough, and holds the layout. */
  method Pack(items: seq<Item>, base: nat) returns (buffer: array<Byte>)
    requires Packable(items, base)
    ensures fresh(buffer)
    ensures buffer[..] == Layout(items, base)
    ensures buffer.Length == DataOffset(items, |items|)
  {
    var arrayPart := DESCRIPTOR_SIZE * |items|;
    var dataPart := 0;
    for i := 0 to |items|
      invariant arrayPart + dataPart == DataOffset(items, i)
    {
      ContentsPrefix(items, i);
      dataPart := dataPart + |items[i].bytes|;
    }
    buffer := new Byte[arrayPart + dataPart](_ => 0);
    var dataPtr := arrayPart;
    for i := 0 to |items|
      invariant dataPtr == DataOffset(items, i) <= buffer.Length
      invariant Filled(buffer[..], items, base, i)
    {
      ContentsPrefix(items, i);
      PackItem(buffer, items, base, i, dataPtr);
      dataPtr := dataPtr + |items[i].bytes|;
    }
    FilledIsLayout(buffer[..], items, base);
  }

  /** The first i items are in place. */
  ghost predicate Filled(buffer: seq<Byte>, items: seq<Item>, base: nat, i: nat)
    requires i <= |items|
  {
    && DESCRIPTOR_SIZE * |items| <= DataOffset(items, i) <= |buffer|
    && buffer[..DESCRIPTOR_SIZE * i] == Flatten(Descriptors(items, base)[..i])
    && buffer[DESCRIPTOR_SIZE * |items|..DataOffset(items, i)] == Flatten(Contents(items)[..i])
  }

  lemma FilledIsLayout(buffer: seq<Byte>, items: seq<Item>, base: nat)
    requires |buffer| == DataOffset(items, |items|) && Filled(buffer, items, base, |items|)
    ensures buffer == Layout(items, base)
  {
    var n := |items|;
    assert Descriptors(items, base)[..n] == Descriptors(items, base) && Contents(items)[..n] == Contents(items);
    assert buffer == buffer[..DESCRIPTOR_SIZE * n] + buffer[DESCRIPTOR_SIZE * n..];
  }

  /** One round of pack's loop: the descriptor in front, the data behind. */
  method PackItem(buffer: array<Byte>, items: seq<Item>, base: nat, i: nat, dataPtr: nat)
    requires i < |items| && dataPtr == DataOffset(items, i)
    requires DataOffset(items, i + 1) <= buffer.Length
        && DataOffset(items, i) + |items[i].bytes| == DataOffset(items, i + 1)
    requires Filled(buffer[..], items, base, i)
    modifies buffer
    ensures Filled(buffer[..], items, base, i + 1)
  {
    hide Descriptor;
    var item, arrayPart := items[i], DESCRIPTOR_SIZE * |items|;
    var d := Descriptor(item, base + dataPtr);
    ContentsPrefix(items, i);
    DescriptorsPrefix(items, base, i);
    ghost var before := buffer[..];
    WriteAt(buffer, DESCRIPTOR_SIZE * i, d);
    DescriptorAppended(before, buffer[..], DESCRIPTOR_SIZE * i, d, arrayPart, dataPtr);
    before := buffer[..];
    WriteAt(buffer, dataPtr, item.bytes);
    DataAppended(before, buffer[..], DESCRIPTOR_SIZE * (i + 1), arrayPart, dataPtr, item.bytes);
  }

  lemma DescriptorAppended(s: seq<Byte>, t: seq<Byte>, at: nat, bytes: seq<Byte>, from: nat, to: nat)
    requires |s| == |t| && at + |bytes| <= from <= to <= |s|
    requires t[..at] == s[..at] && t[at..at + |bytes|] == bytes && t[at + |bytes|..] == s[at + |bytes|..]
    ensures t[..at + |bytes|] == s[..at] + bytes
    ensures t[from..to] == s[from..to]
  {
    var cut := at + |bytes|;
    SliceOf(t, cut, t[cut..], from - cut, to - cut);
    SliceOf(s, cut, s[cut..], from - cut, to - cut);
  }

  lemma DataAppended(s: seq<Byte>, t: seq<Byte>, low: nat, from: nat, at: nat, bytes: seq<Byte>)
    requires |s| == |t| && low <= from <= at && at + |bytes| <= |s|
    requires t[..at] == s[..at] && t[at..at + |bytes|] == bytes
    ensures t[..low] == s[..low]
    ensures t[from..at + |bytes|] == s[from..at] + bytes
  {
    assert t[..low] == t[..at][..low] && s[..low] == s[..at][..low];
    assert t[from..at] == t[..at][from..] && s[from..at] == s[..at][from..];
  }

  // ---------------------------------------------------------------------------------------------
  // Reading a buffer that sits at address `base`.

  function ExtTypeAt(buffer: seq<Byte>, i: nat): nat
    requires DESCRIPTOR_SIZE * (i + 1) <= |buffer|
  {
    FromLittleEndian(buffer[DESCRIPTOR_SIZE * i + 2..DESCRIPTOR_SIZE * i + 4])
  }

  function DataSizeAt(buffer: seq<Byte>, i: nat): nat
    requires DESCRIPTOR_SIZE * (i + 1) <= |buffer|
  {
    FromLittleEndian(buffer[DESCRIPTOR_SIZE * i + 6..DESCRIPTOR_SIZE * i + 8])
  }

  function DataPtrAt(buffer: seq<Byte>, i: nat): nat
    requires DESCRIPTOR_SIZE * (i + 1) <= |buffer|
  {
    FromLittleEndian(buffer[DESCRIPTOR_SIZE * i + 8..DESCRIPTOR_SIZE * i + 16])
  }

  /** A 64-bit read through a pointer; None if it leaves the buffer. */
  function ReadU64(buffer: seq<Byte>, base: nat, pointer: nat): Option<nat> {
    if base <= pointer && pointer + 8 <= base + |buffer|
    then Some(FromLittleEndian(buffer[pointer - base..pointer - base + 8])) else None
  }

  function FindStartKey(buffer: seq<Byte>, base: nat, i: nat, count: nat): Option<nat>
    requires i <= count && DESCRIPTOR_SIZE * count <= |buffer|
    decreases count - i
  {
    if i == count then Some(0)
    else if ExtTypeAt(buffer, i) == PROCESS_START_KEY
      && DataPtrAt(buffer, i) != 0 then ReadU64(buffer, base, DataPtrAt(buffer, i))
    else FindStartKey(buffer, base, i + 1, count)
  }

  /** Descriptor i is of type 11 and points somewhere. */
  predicate HasStartKey(buffer: seq<Byte>, i: nat)
    requires DESCRIPTOR_SIZE * (i + 1) <= |buffer|
  {
    ExtTypeAt(buffer, i) == 11 && DataPtrAt(buffer, i) > 0
  }

  /** schema::process_start_key over the record's extended data. */
  method ProcessStartKey(buffer: seq<Byte>, base: nat, count: nat) returns (key: Option<nat>)
    requires DESCRIPTOR_SIZE * count <= |buffer|
    ensures key == FindStartKey(buffer, base, 0, count)
    ensures forall i :: 0 <= i < count && HasStartKey(buffer, i) && (forall j :: 0 <= j < i ==> !HasStartKey(buffer, j))
              ==> key == ReadU64(buffer, base, DataPtrAt(buffer, i))
    ensures (forall i :: 0 <= i < count ==> !HasStartKey(buffer, i)) ==> key == Some(0)
  {
    for i := 0 to count
      invariant forall j :: 0 <= j < i ==> !HasStartKey(buffer, j)
      invariant FindStartKey(buffer, base, 0, count) == FindStartKey(buffer, base, i, count)
    {
      if ExtTypeAt(buffer, i) == PROCESS_START_KEY {
        if DataPtrAt(buffer, i) != 0 {
          assert HasStartKey(buffer, i);
          return ReadU64(buffer, base, DataPtrAt(buffer, i));
        }
      }
    }
    return Some(0);
  }

  lemma ReadLittleEndian(buffer: seq<Byte>, at: nat, n: nat, width: nat)
    requires at + width <= |buffer| && n < Pow256(width)
    requires buffer[at..at + width] == ToLittleEndian(n, width)
    ensures FromLittleEndian(buffer[at..at + width]) == n
  {
    LittleEndianReadsBack(n, width);
    ModUnique(n, Pow256(width), 0, n);
  }

  lemma DescriptorFields(item: Item, pointer: nat)
    requires item.extType < U16 && |item.bytes| < U16 && pointer < U64
    ensures var d := Descriptor(item, pointer);
            && FromLittleEndian(d[2..4]) == item.extType
            && FromLittleEndian(d[6..8]) == |item.bytes|
            && FromLittleEndian(d[8..16]) == pointer
  {
    var d := Descriptor(item, pointer);
    hide ToLittleEndian;
    var e, n, p := ToLittleEndian(item.extType, 2), ToLittleEndian(|item.bytes|, 2), ToLittleEndian(pointer, 8);
    assert d == ([0, 0] + e + [0, 0] + n) + p;
    assert d[8..16] == p;
    assert d[2..4] == e;
    assert d[6..8] == n;
    assert Pow256(2) == U16;
    ReadLittleEndian(d, 2, item.extType, 2);
    ReadLittleEndian(d, 6, |item.bytes|, 2);
    U64LittleEndian(pointer);
  }

  lemma ItemData(items: seq<Item>, base: nat, i: nat)
    requires i < |items|
    ensures var b, at := Layout(items, base), DataOffset(items, i);
            && DESCRIPTOR_SIZE * |items| <= at
              && at + |items[i].bytes| == DataOffset(items, i + 1) <= |b| == DataOffset(items, |items|)
            && b[at..at + |items[i].bytes|] == items[i].bytes
  {
    hide Descriptor;
    hide Flatten;
    var d, c := Flatten(Descriptors(items, base)), Contents(items);
    DescriptorsPrefix(items, base, |items|);
    assert Descriptors(items, base)[..|items|] == Descriptors(items, base) && c[..|items|] == c;
    ContentsPrefix(items, i);
    FlattenPart(c, i);
    var at := |Flatten(c[..i])|;
    var b := d + Flatten(c);
    assert b[|d|..|d| + |Flatten(c)|] == Flatten(c);
    SliceOf(b, |d|, Flatten(c), at, at + |items[i].bytes|);
  }

  lemma ItemDescriptor(items: seq<Item>, base: nat, i: nat)
    requires i < |items|
    ensures var b, from := Layout(items, base), DESCRIPTOR_SIZE * i;
            from + DESCRIPTOR_SIZE <= |b|
              && b[from..from + DESCRIPTOR_SIZE] == Descriptor(items[i], base + DataOffset(items, i))
  {
    hide Descriptor;
    hide DataOffset;
    var d := Descriptors(items, base);
    FlattenPart(d, i);
    DescriptorsPrefix(items, base, i);
    var from := DESCRIPTOR_SIZE * i;
    var b := Layout(items, base);
    assert b[0..|Flatten(d)|] == Flatten(d);
    SliceOf(b, 0, Flatten(d), from, from + DESCRIPTOR_SIZE);
  }

  /** Descriptor i names item i's type and size, and its pointer leads to item i's bytes, which lie
      behind all descriptors, right behind the data of item i - 1, and end the buffer when i is last. */
  lemma ItemPlacement(items: seq<Item>, base: nat, i: nat)
    requires Packable(items, base) && i < |items|
    ensures var b, at := Layout(items, base), DataOffset(items, i);
            && DESCRIPTOR_SIZE * (i + 1) <= DESCRIPTOR_SIZE * |items| <= at
            && at + |items[i].bytes| == DataOffset(items, i + 1) <= |b| == DataOffset(items, |items|)
            && b[at..at + |items[i].bytes|] == items[i].bytes
            && ExtTypeAt(b, i) == items[i].extType
            && DataSizeAt(b, i) == |items[i].bytes|
            && DataPtrAt(b, i) == base + at
  {
    hide Descriptor;
    hide DataOffset;
    hide Layout;
    hide FromLittleEndian;
    var b, from, d := Layout(items, base), DESCRIPTOR_SIZE * i, Descriptor(items[i], base + DataOffset(items, i));
    ItemData(items, base, i);
    ItemDescriptor(items, base, i);
    assert items[i] in items;
    DescriptorFields(items[i], base + DataOffset(items, i));
    SliceOf(b, from, d, 2, 4);
    SliceOf(b, from, d, 6, 8);
    SliceOf(b, from, d, 8, 16);
  }

  /** The 16-bit number whose bytes start at `at`. */
  function TwoAt(bytes: seq<Byte>, at: nat): int
    requires at + 2 <= |bytes|
  {
    var low: int, high: int := bytes[at], bytes[at + 1];
    low + 256 * high
  }

  lemma TwoBytes(n: nat)
    requires n < U16
    ensures TwoAt(ToLittleEndian(n, 2), 0) == n
  {
  }

  lemma DescriptorIs(item: Item, pointer: nat)
    requires item.extType < U16 && |item.bytes| < U16
    ensures var d := Descriptor(item, pointer);
            && d[0] == d[1] == d[4] == d[5] == 0
            && TwoAt(d, 2) == item.extType && TwoAt(d, 6) == |item.bytes|
            && forall k :: 0 <= k < 8 ==> d[8 + k] == pointer / Pow256(k) % 256
  {
    TwoBytes(item.extType);
    TwoBytes(|item.bytes|);
    forall k | 0 <= k < 8 ensures ToLittleEndian(pointer, 8)[k] == pointer / Pow256(k) % 256 {
      LittleEndianDigit(pointer, 8, k);
    }
    hide ToLittleEndian;
    hide Pow256;
  }

  /** Byte by byte, descriptor i is 16 bytes long: type and size in two bytes each, pointer in eight, least significant
      byte first, and nothing in the reserved ones. */
  lemma DescriptorBytes(items: seq<Item>, base: nat, i: nat)
    requires Packable(items, base) && i < |items|
    ensures var b, at := Layout(items, base), 16 * i;
            && at + 16 <= |b|
            && b[at] == b[at + 1] == b[at + 4] == b[at + 5] == 0
            && TwoAt(b, at + 2) == items[i].extType && TwoAt(b, at + 6) == |items[i].bytes|
            && forall k :: 0 <= k < 8 ==> b[at + 8 + k] == (base + DataOffset(items, i)) / Pow256(k) % 256
  {
    hide Layout;
    hide DataOffset;
    hide Pow256;
    assert items[i] in items;
    var at, pointer := 16 * i, base + DataOffset(items, i);
    var d := Descriptor(items[i], pointer);
    ItemDescriptor(items, base, i);
    DescriptorIs(items[i], pointer);
    hide Descriptor;
    assert forall j :: 0 <= j < 16 ==> Layout(items, base)[at + j] == Layout(items, base)[at..at + 16][j] == d[j];
  }

  /** The data of two items never overlaps. */
  lemma {:induction false} ItemsAreDisjoint(items: seq<Item>, i: nat, j: nat)
    requires i < j < |items|
    ensures DataOffset(items, i) + |items[i].bytes| <= DataOffset(items, j)
    decreases j - i
  {
    ContentsPrefix(items, i);
    if i + 1 < j {
      ItemsAreDisjoint(items, i + 1, j);
    }
  }

  function FirstStartKey(items: seq<Item>): nat {
    if items == [] then 0
    else if items[0].extType == PROCESS_START_KEY then FromLittleEndian(items[0].bytes)
    else FirstStartKey(items[1..])
  }

  lemma LayoutSize(items: seq<Item>, base: nat)
    ensures |Layout(items, base)| >= DESCRIPTOR_SIZE * |items|
  {
    hide Descriptor;
    DescriptorsPrefix(items, base, |items|);
    assert Descriptors(items, base)[..|items|] == Descriptors(items, base);
  }

  /** The reader returns the first start key among the items the 16-bit count still covers, or 0;
      with at most 65535 items that is the first start key added. */
  lemma StartKeyReadsBack(items: seq<Item>, base: nat)
    requires Packable(items, base)
    requires forall item :: item in items && item.extType == PROCESS_START_KEY ==> |item.bytes| == 8
    ensures var count := |items| % U16;
            && DESCRIPTOR_SIZE * count <= |Layout(items, base)|
            && FindStartKey(Layout(items, base), base, 0, count) == Some(FirstStartKey(items[..count]))
            && (|items| < U16 ==> items[..count] == items)
  {
    var count := |items| % U16;
    LayoutSize(items, base);
    hide Layout;
    hide DataOffset;
    hide FindStartKey;
    hide FirstStartKey;
    hide Packable;
    assert items[0..count] == items[..count];
    if |items| < U16 {
      ModUnique(|items|, U16, 0, |items|);
    }
    StartKeyFrom(items, base, 0, count);
  }

  lemma {:induction false} StartKeyFrom(items: seq<Item>, base: nat, i: nat, count: nat)
    requires Packable(items, base) && i <= count <= |items|
    requires forall item :: item in items && item.extType == PROCESS_START_KEY ==> |item.bytes| == 8
    requires DESCRIPTOR_SIZE * count <= |Layout(items, base)|
    ensures FindStartKey(Layout(items, base), base, i, count) == Some(FirstStartKey(items[i..count]))
    decreases count - i
  {
    hide Layout;
    hide DataOffset;
    hide ExtTypeAt;
    hide DataPtrAt;
    hide FromLittleEndian;
    if i < count {
      ItemPlacement(items, base, i);
      assert items[i] in items && items[i..count][0] == items[i] && items[i..count][1..] == items[i + 1..count];
      StartKeyFrom(items, base, i + 1, count);
    }
  }

  lemma {:induction false} FirstStartKeyIs(items: seq<Item>, i: nat, key: nat)
    requires i < |items| && items[i] == Item(11, ToLittleEndian(key, 8)) && key < U64
    requires forall j :: 0 <= j < i ==> items[j].extType != 11
    ensures FirstStartKey(items) == key
    decreases i
  {
    if i == 0 {
      U64LittleEndian(key);
    } else {
      FirstStartKeyIs(items[1..], i - 1, key);
    }
  }

  /** Of any number of start keys added, the first one is read back. */
  lemma AddedStartKeyReadsBack(items: seq<Item>, base: nat, i: nat, key: nat)
    requires Packable(items, base) && |items| < U16
    requires forall item :: item in items && item.extType == 11 ==> |item.bytes| == 8
    requires i < |items| && items[i] == StartKeyItem(key) && key < U64
    requires forall j :: 0 <= j < i ==> items[j].extType != 11
    ensures StartKeyItem(key).extType == 11
    ensures DESCRIPTOR_SIZE * |items| <= |Layout(items, base)|
    ensures FindStartKey(Layout(items, base), base, 0, |items|) == Some(key)
  {
    hide Layout;
    hide FindStartKey;
    hide FirstStartKey;
    hide Packable;
    StartKeyReadsBack(items, base);
    FirstStartKeyIs(items, i, key);
  }

  lemma GuidTextFitsBytes(s: string)
    requires Guid.IsGuidText(s)
    ensures FromBytes(ToBytes(s)) == s
  {
    forall i | 0 <= i < |s| ensures FromBytes(ToBytes(s))[i] == s[i] {
      assert s[i] == '-' || Guid.HexValue(s[i]).Some?;
    }
  }

  /** A container id added to the record is found behind its descriptor, as text that parses to the same GUID. */
  lemma ContainerIdReadsBack(items: seq<Item>, base: nat, i: nat, g: Guid.Guid)
    requires Packable(items, base) && i < |items| && g.Valid() && items[i] == ContainerIdItem(g)
    ensures var b := Layout(items, base);
            && DESCRIPTOR_SIZE * (i + 1) <= |b| && ExtTypeAt(b, i) == 16
            && base <= DataPtrAt(b, i) && DataPtrAt(b, i) - base + DataSizeAt(b, i) <= |b|
            && var at := DataPtrAt(b, i) - base;
               var text := FromBytes(b[at..at + DataSizeAt(b, i)]);
               Guid.Parse(text) == Ok(g) && forall k :: 0 <= k < |text| ==> !('a' <= text[k] <= 'z')
  {
    hide Layout;
    hide DataOffset;
    hide ExtTypeAt;
    hide DataSizeAt;
    hide DataPtrAt;
    hide Guid.Print;
    hide Guid.Parse;
    hide Guid.IsGuidText;
    hide Packable;
    var s := Guid.Upper(Guid.Print(g));
    ItemPlacement(items, base, i);
    Guid.UpperTextParses(g);
    Guid.AcceptedTexts(s);
    GuidTextFitsBytes(s);
  }
}
