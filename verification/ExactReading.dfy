/** Any record at all, and any values: exactly when the parser reads these values off that record. */
module ExactReading {
  import opened Prelude
  import opened SizeProvider
  import opened Parser
  import opened RecordBuilder
  import opened RoundTrip

  /** Value v is of property p's type; a string is one whose size the provider scans for. Nothing is asked of the
      declared length of anything else. */
  predicate Declarable(p: PropertyInfo, v: Value) {
    && v.WellMade()
    && p.inType == v.Type()
    && (v.IsString() ==> p.outType.StringOut? && p.length == 0 && !p.paramLength && !p.otherFlags)
  }

  /** The size of a property that is no string, wherever it starts. */
  function FixedSize(r: EventRecord, p: PropertyInfo): nat {
    PropertySize(r, 0, p)
  }

  lemma FixedSizeAnywhere(r: EventRecord, p: PropertyInfo, v: Value, off: nat)
    requires Declarable(p, v) && !v.IsString()
    ensures PropertySize(r, off, p) == FixedSize(r, p)
  {
  }

  /** The record holds value v, which is no string, in the n bytes from `off` on - or, for a flag, in the four
      bytes from there on that are read whatever n is. */
  predicate HoldsFixed(r: EventRecord, v: Value, n: nat, off: nat) {
    && off + n <= |r.data| && r.userData + off != 0
    && match v
       case Bool(b) => off + 4 <= |r.data| && (b <==> r.data[off..off + 4] != [0, 0, 0, 0])
       case Ptr(target) => (n == 4 || n == 8) && FromLittleEndian(r.data[off..off + n]) == target
       case _ => r.data[off..off + n] == v.Content()
  }

  /** The bytes from `off` on say v: a string up to its terminator or up to the end of the record. */
  predicate ReadableAt(r: EventRecord, p: PropertyInfo, v: Value, off: nat) {
    if v.IsString() then Holds(r.data, off, Field(v)) && Survives(r, p, v, off)
    else HoldsFixed(r, v, FixedSize(r, p), off)
  }

  /** How far a property reaches: a string as far as its value, anything else as far as declared. */
  function Width(r: EventRecord, p: PropertyInfo, v: Value): nat {
    if v.IsString() then |Field(v)| else FixedSize(r, p)
  }

  /** Where property i begins if everything before it says its value. */
  function Placed(r: EventRecord, vs: seq<Value>, i: nat): (at: nat)
    requires i <= |vs| == |r.props|
    ensures at <= |r.data|
  {
    if i == 0 then 0 else Min(Placed(r, vs, i - 1) + Width(r, r.props[i - 1], vs[i - 1]), |r.data|)
  }

  predicate AllReadable(r: EventRecord, vs: seq<Value>, n: nat)
    requires n <= |vs| == |r.props|
  {
    forall i :: 0 <= i < n ==> ReadableAt(r, r.props[i], vs[i], Placed(r, vs, i))
  }

  predicate AllDeclarable(props: seq<PropertyInfo>, vs: seq<Value>) {
    |vs| == |props| && forall i :: 0 <= i < |props| ==> Declarable(props[i], vs[i])
  }

  // ---------------------------------------------------------------------------------------------
  // Everything but strings.

  lemma FixedReads(r: EventRecord, i: nat, v: Value, off: nat)
    requires i < |r.props| && StartOf(r, i) == Some(off) && Declarable(r.props[i], v) && !v.IsString()
    ensures ReadAt(r, i, v) == Ok(ViewOf(v)) <==> HoldsFixed(r, v, FixedSize(r, r.props[i]), off)
    ensures HoldsFixed(r, v, FixedSize(r, r.props[i]), off) ==>
              StartOf(r, i + 1) == Some(off + FixedSize(r, r.props[i]))
  {
    hide PropertySize;
    hide FixedSize;
    hide StartOf;
    hide ReadAt;
    FixedSizeAnywhere(r, r.props[i], v, off);
    var n := FixedSize(r, r.props[i]);
    if off + n <= |r.data| {
      WalkStep(r, i, off, n);
      if r.userData + off != 0 {
        AddressedReads(r, i, v, n, off);
        hide HoldsFixed;
      } else {
        UnaddressedFails(r, i, v, n, off);
      }
    } else {
      hide FromLittleEndian;
      Overruns(r, i, off);
      PastEndFails(r, i, v);
    }
  }

  lemma AddressedReads(r: EventRecord, i: nat, v: Value, n: nat, off: nat)
    requires i < |r.props| && StartOf(r, i) == Some(off) && PropertySize(r, off, r.props[i]) == n
    requires !v.IsString() && off + n <= |r.data| && r.userData + off != 0
    ensures ReadAt(r, i, v) == Ok(ViewOf(v)) <==> HoldsFixed(r, v, n, off)
  {
    hide PropertySize;
    hide Interpret;
    hide StartOf;
    hide HoldsFixed;
    hide WalkTo;
    FixedInterprets(r, v, n, off);
    DecodeAtStart(r, i, off, r.data[off..off + n], RequestFor(v));
  }

  lemma UnaddressedFails(r: EventRecord, i: nat, v: Value, n: nat, off: nat)
    requires i < |r.props| && StartOf(r, i) == Some(off) && PropertySize(r, off, r.props[i]) == n
    requires off + n <= |r.data| && r.userData + off == 0
    ensures ReadAt(r, i, v) == Err(DoesNotExist)
  {
    hide PropertySize;
    hide Interpret;
    assert WalkTo(r, i) == Returned(Location(0, i, n));
  }

  lemma PastEndFails(r: EventRecord, i: nat, v: Value)
    requires i < |r.props| && WalkTo(r, i) == OutOfRange
    ensures ReadAt(r, i, v) == Err(PastEnd)
  {
  }

  lemma FixedInterprets(r: EventRecord, v: Value, n: nat, off: nat)
    requires !v.IsString() && off + n <= |r.data| && r.userData + off != 0
    ensures Interpret(RequestFor(v), r.data[off..off + n], r.data[off..]) == Ok(ViewOf(v)) <==> HoldsFixed(r, v, n, off)
  {
    hide FromLittleEndian;
    if v.Bool? && off + 4 <= |r.data| {
      assert r.data[off..][..4] == r.data[off..off + 4];
    }
  }

  // ---------------------------------------------------------------------------------------------
  // Strings.

  lemma DecodeStep(bytes: seq<Byte>)
    requires |bytes| >= 2
    ensures var low: int, high: int := bytes[0], bytes[1];
            DecodeWide(bytes) == [low + 256 * high] + DecodeWide(bytes[2..])
  {
  }

  lemma DecodeSlice(data: seq<Byte>, off: nat, e: nat)
    requires 2 <= e && off + e <= |data|
    ensures var low: int, high: int := data[off], data[off + 1];
            DecodeWide(data[off..off + e]) == [low + 256 * high] + DecodeWide(data[off + 2..off + e])
  {
    hide DecodeWide;
    var bytes := data[off..off + e];
    DecodeStep(bytes);
    assert bytes[2..] == data[off + 2..off + e];
  }

  /** The units a wide scan passes inside the record: none but the last one is zero, and that one is unless the
      record ends there. */
  lemma {:induction false} WideExtentEnds(data: seq<Byte>, off: nat)
    requires off < |data| && off + WideExtent(data, off) <= |data|
    ensures var e := WideExtent(data, off);
            var units := DecodeWide(data[off..off + e]);
            && e == 2 * |units| >= 2
            && (forall k :: 0 <= k < |units| - 1 ==> units[k] != 0)
            && (off + e == |data| || units[|units| - 1] == 0)
    decreases |data| - off
  {
    var e := WideExtent(data, off);
    if off + 1 < |data| && !(data[off] == 0 && data[off + 1] == 0) && off + 2 < |data| {
      WideExtentEnds(data, off + 2);
      DecodeSlice(data, off, e);
    }
  }

  /** The same for a narrow scan, which never leaves the record. */
  lemma {:induction false} NarrowExtentEnds(data: seq<Byte>, off: nat)
    requires off < |data|
    ensures off + NarrowExtent(data, off) <= |data|
    ensures var bytes := data[off..off + NarrowExtent(data, off)];
            && bytes != []
            && (forall k :: 0 <= k < |bytes| - 1 ==> bytes[k] != 0)
            && (off + |bytes| == |data| || bytes[|bytes| - 1] == 0)
    decreases |data| - off
  {
    if data[off] == 0 || off + 1 == |data| {
      assert NarrowExtent(data, off) == 1;
    } else {
      NarrowExtentEnds(data, off + 1);
      var bytes, rest := data[off..off + NarrowExtent(data, off)], data[off + 1..off + 1 + NarrowExtent(data, off + 1)];
      assert bytes == [data[off]] + rest;
      forall k | 0 <= k < |bytes| - 1 ensures bytes[k] != 0 {
        assert k > 0 ==> bytes[k] == rest[k - 1];
      }
      assert bytes[|bytes| - 1] == rest[|rest| - 1];
    }
  }

  lemma EncodeDecodedWide(bytes: seq<Byte>)
    requires |bytes| % 2 == 0
    ensures EncodeWide(DecodeWide(bytes)) == bytes
  {
    forall i | 0 <= i < |bytes| ensures EncodeWide(DecodeWide(bytes))[i] == bytes[i] {
      var low: int, high: int := bytes[2 * (i / 2)], bytes[2 * (i / 2) + 1];
      assert DecodeWide(bytes)[i / 2] == low + 256 * high;
      ModUnique(low + 256 * high, 256, high, low);
    }
  }

  lemma WideTextOf(units: seq<Wide>)
    requires units != [] && forall k :: 0 <= k < |units| - 1 ==> units[k] != 0
    ensures units[..ContentLength(units, 0)] == if units[|units| - 1] == 0 then units[..|units| - 1] else units
  {
  }

  /** Bytes of the record, and whatever comes behind them beyond its end. */
  lemma HeldBytes(data: seq<Byte>, off: nat, bytes: seq<Byte>, beyond: seq<Byte>)
    requires off + |bytes| <= |data| && data[off..off + |bytes|] == bytes
    requires beyond != [] ==> off + |bytes| == |data|
    ensures Holds(data, off, bytes + beyond)
  {
    forall k | 0 <= k < |bytes + beyond| && off + k < |data| ensures data[off + k] == (bytes + beyond)[k] {
      assert data[off..off + |bytes|][k] == data[off + k];
    }
  }

  lemma EncodeLast(units: seq<Wide>)
    requires units != []
    ensures units[|units| - 1] == 0 ==> EncodeWide(units) == EncodeWide(units[..|units| - 1]) + [0, 0]
  {
  }

  lemma UnitsAreHeld(data: seq<Byte>, off: nat, units: seq<Wide>)
    requires units != [] && off + |EncodeWide(units)| <= |data|
    requires data[off..off + |EncodeWide(units)|] == EncodeWide(units)
    requires forall k :: 0 <= k < |units| - 1 ==> units[k] != 0
    requires off + |EncodeWide(units)| == |data| || units[|units| - 1] == 0
    ensures Holds(data, off, EncodeWide(units[..ContentLength(units, 0)]) + [0, 0])
  {
    WideTextOf(units);
    EncodeLast(units);
    hide EncodeWide;
    hide Holds;
    hide ContentLength;
    var bytes := EncodeWide(units);
    if units[|units| - 1] == 0 {
      assert bytes + [] == bytes;
      HeldBytes(data, off, bytes, []);
    } else {
      HeldBytes(data, off, bytes, [0, 0]);
    }
  }

  /** What a wide scan reads is what the record holds. */
  lemma WideReadIsHeld(data: seq<Byte>, off: nat)
    requires off < |data| && off + WideExtent(data, off) <= |data|
    ensures var units := DecodeWide(data[off..off + WideExtent(data, off)]);
            Holds(data, off, EncodeWide(units[..ContentLength(units, 0)]) + [0, 0])
  {
    hide WideExtent;
    hide DecodeWide;
    hide EncodeWide;
    hide Holds;
    hide ContentLength;
    WideExtentEnds(data, off);
    var bytes := data[off..off + WideExtent(data, off)];
    EncodeDecodedWide(bytes);
    UnitsAreHeld(data, off, DecodeWide(bytes));
  }

  lemma NarrowTextOf(bytes: seq<Byte>)
    requires bytes != [] && forall k :: 0 <= k < |bytes| - 1 ==> bytes[k] != 0
    ensures bytes[..ContentLength(bytes, 0)] == if bytes[|bytes| - 1] == 0 then bytes[..|bytes| - 1] else bytes
  {
  }

  lemma NarrowReadIsHeld(data: seq<Byte>, off: nat)
    requires off < |data|
    ensures off + NarrowExtent(data, off) <= |data|
    ensures var bytes := data[off..off + NarrowExtent(data, off)];
            Holds(data, off, bytes[..ContentLength(bytes, 0)] + [0])
  {
    NarrowExtentEnds(data, off);
    var bytes := data[off..off + NarrowExtent(data, off)];
    hide NarrowExtent;
    hide Holds;
    NarrowTextOf(bytes);
    hide ContentLength;
    if bytes[|bytes| - 1] == 0 {
      assert bytes == bytes[..|bytes| - 1] + [0] && bytes + [] == bytes;
      HeldBytes(data, off, bytes, []);
    } else {
      HeldBytes(data, off, bytes, [0]);
    }
  }

  lemma TextSize(r: EventRecord, p: PropertyInfo, v: Value, off: nat)
    requires Declarable(p, v) && v.IsString() && off < |r.data|
    ensures PropertySize(r, off, p) == if v.Text? then WideExtent(r.data, off) else NarrowExtent(r.data, off)
  {
  }

  lemma ReadTextBytes(r: EventRecord, i: nat, v: Value, off: nat)
    requires i < |r.props| && StartOf(r, i) == Some(off) && v.IsString()
    requires ReadAt(r, i, v) == Ok(ViewOf(v))
    ensures var size := PropertySize(r, off, r.props[i]);
            && off + size <= |r.data|
            && Interpret(RequestFor(v), r.data[off..off + size], r.data[off..]) == Ok(ViewOf(v))
  {
    hide PropertySize;
    hide Interpret;
    var size := PropertySize(r, off, r.props[i]);
    if off + size <= |r.data| {
      assert WalkTo(r, i) == Returned(Location(r.userData + off, i, size));
    }
  }

  lemma InterpretedWide(bytes: seq<Byte>, rest: seq<Byte>, wide: seq<Wide>)
    requires Interpret(AsWide, bytes, rest) == Ok(WideText(wide))
    ensures wide == DecodeWide(bytes)[..ContentLength(DecodeWide(bytes), 0)]
  {
  }

  lemma InterpretedNarrow(bytes: seq<Byte>, rest: seq<Byte>, narrow: seq<Byte>)
    requires Interpret(AsNarrow, bytes, rest) == Ok(NarrowText(narrow))
    ensures narrow == bytes[..ContentLength(bytes, 0)]
  {
  }

  lemma HoldsBeyond(data: seq<Byte>, off: nat, f: seq<Byte>)
    requires off >= |data|
    ensures Holds(data, off, f)
  {
  }

  lemma ReadWideIsHeld(r: EventRecord, i: nat, wide: seq<Wide>, off: nat)
    requires i < |r.props| && StartOf(r, i) == Some(off) && off < |r.data| && Declarable(r.props[i], Text(wide))
    requires ReadAt(r, i, Text(wide)) == Ok(WideText(wide))
    ensures Holds(r.data, off, EncodeWide(wide) + [0, 0])
  {
    hide PropertySize;
    hide ReadAt;
    hide Interpret;
    hide Holds;
    hide WideExtent;
    hide StartOf;
    hide DecodeWide;
    hide EncodeWide;
    hide ContentLength;
    TextSize(r, r.props[i], Text(wide), off);
    ReadTextBytes(r, i, Text(wide), off);
    var size := WideExtent(r.data, off);
    WideReadIsHeld(r.data, off);
    InterpretedWide(r.data[off..off + size], r.data[off..], wide);
  }

  lemma ReadNarrowIsHeld(r: EventRecord, i: nat, narrow: seq<Byte>, off: nat)
    requires i < |r.props| && StartOf(r, i) == Some(off) && off < |r.data| && Declarable(r.props[i], Ansi(narrow))
    requires ReadAt(r, i, Ansi(narrow)) == Ok(NarrowText(narrow))
    ensures Holds(r.data, off, narrow + [0])
  {
    hide PropertySize;
    hide ReadAt;
    hide Interpret;
    hide Holds;
    hide NarrowExtent;
    hide StartOf;
    hide ContentLength;
    TextSize(r, r.props[i], Ansi(narrow), off);
    ReadTextBytes(r, i, Ansi(narrow), off);
    var size := NarrowExtent(r.data, off);
    NarrowReadIsHeld(r.data, off);
    InterpretedNarrow(r.data[off..off + size], r.data[off..], narrow);
  }

  /** A text that is read is a text the record holds. */
  lemma ReadTextIsHeld(r: EventRecord, i: nat, v: Value, off: nat)
    requires i < |r.props| && StartOf(r, i) == Some(off) && Declarable(r.props[i], v) && v.IsString()
    requires ReadAt(r, i, v) == Ok(ViewOf(v))
    ensures Holds(r.data, off, Field(v))
  {
    hide PropertySize;
    hide ReadAt;
    hide Holds;
    if off < |r.data| {
      if v.Text? {
        ReadWideIsHeld(r, i, v.wide, off);
      } else {
        ReadNarrowIsHeld(r, i, v.narrow, off);
      }
    } else {
      HoldsBeyond(r.data, off, Field(v));
    }
  }

  lemma TextReads(r: EventRecord, i: nat, v: Value, off: nat)
    requires r.Valid() && i < |r.props| && StartOf(r, i) == Some(off) && off <= |r.data|
    requires Declarable(r.props[i], v) && v.IsString()
    ensures ReadAt(r, i, v) == Ok(ViewOf(v)) <==> Holds(r.data, off, Field(v)) && Survives(r, r.props[i], v, off)
    ensures Holds(r.data, off, Field(v)) && Survives(r, r.props[i], v, off) ==>
              StartOf(r, i + 1) == Some(Min(off + |Field(v)|, |r.data|))
  {
    hide ReadAt;
    hide StartOf;
    hide Survives;
    hide Holds;
    if Holds(r.data, off, Field(v)) {
      assert Reached(r, i, v, off);
      if Survives(r, r.props[i], v, off) {
        FieldReadsBack(r, i, v, off);
      } else {
        FieldIsLost(r, i, v, off);
      }
    } else if ReadAt(r, i, v) == Ok(ViewOf(v)) {
      ReadTextIsHeld(r, i, v, off);
    }
  }

  // ---------------------------------------------------------------------------------------------
  // Whole records.

  lemma ReadsExactly(r: EventRecord, i: nat, v: Value, off: nat)
    requires r.Valid() && i < |r.props| && StartOf(r, i) == Some(off) && off <= |r.data| && Declarable(r.props[i], v)
    ensures ReadAt(r, i, v) == Ok(ViewOf(v)) <==> ReadableAt(r, r.props[i], v, off)
    ensures ReadableAt(r, r.props[i], v, off) ==>
              StartOf(r, i + 1) == Some(Min(off + Width(r, r.props[i], v), |r.data|))
  {
    hide ReadAt;
    hide StartOf;
    hide FixedSize;
    hide Holds;
    hide Survives;
    if v.IsString() {
      TextReads(r, i, v, off);
    } else {
      FixedReads(r, i, v, off);
    }
  }

  predicate WalksTo(r: EventRecord, vs: seq<Value>, i: nat)
    requires i <= |vs| == |r.props|
  {
    StartOf(r, i) == Some(Placed(r, vs, i))
  }

  lemma PlacedStep(r: EventRecord, vs: seq<Value>, i: nat)
    requires r.Valid() && i < |vs| == |r.props| && Declarable(r.props[i], vs[i])
    requires WalksTo(r, vs, i) && ReadableAt(r, r.props[i], vs[i], Placed(r, vs, i))
    ensures WalksTo(r, vs, i + 1)
  {
    hide StartOf;
    hide ReadableAt;
    hide Width;
    hide Declarable;
    ReadsExactly(r, i, vs[i], Placed(r, vs, i));
  }

  /** As long as everything is readable where it is placed, that is where the walk gets. */
  lemma {:induction false} WalkIsPlaced(r: EventRecord, vs: seq<Value>, i: nat)
    requires r.Valid() && AllDeclarable(r.props, vs) && i <= |vs| && AllReadable(r, vs, i)
    ensures WalksTo(r, vs, i)
  {
    hide ReadableAt;
    hide Declarable;
    if i == 0 {
      WalkStarts(r);
    } else {
      hide WalksTo;
      WalkIsPlaced(r, vs, i - 1);
      PlacedStep(r, vs, i - 1);
    }
  }

  ghost function FirstUnreadable(r: EventRecord, vs: seq<Value>, n: nat): (i: nat)
    requires n <= |vs| == |r.props| && !AllReadable(r, vs, n)
    ensures i < n && AllReadable(r, vs, i) && !ReadableAt(r, r.props[i], vs[i], Placed(r, vs, i))
  {
    if AllReadable(r, vs, n - 1) then n - 1 else FirstUnreadable(r, vs, n - 1)
  }

  /** A record of whatever bytes gives every value, under every hint, if and only if each value is readable at its
      place; the places follow from the declared lengths and the values alone. */
  lemma AnyRecordReads(r: EventRecord, vs: seq<Value>)
    requires r.Valid() && AllDeclarable(r.props, vs) && DistinctNames(r.props)
    ensures AllReadBack(r, vs) <==> AllReadable(r, vs, |vs|)
  {
    hide ReadsBack;
    hide ReadAt;
    hide ReadableAt;
    hide StartOf;
    hide Placed;
    hide DistinctNames;
    hide Declarable;
    if AllReadable(r, vs, |vs|) {
      forall i | 0 <= i < |vs| ensures ReadsBack(r, r.props[i].name, vs[i]) {
        WalkIsPlaced(r, vs, i);
        ReadsExactly(r, i, vs[i], Placed(r, vs, i));
        ReadsBackByWalk(r, i, vs[i]);
      }
    } else {
      var i := FirstUnreadable(r, vs, |vs|);
      WalkIsPlaced(r, vs, i);
      ReadsExactly(r, i, vs[i], Placed(r, vs, i));
      ReadsBackByWalk(r, i, vs[i]);
    }
  }
}
