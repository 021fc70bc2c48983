/** The lazy, cached property lookup, and the front-to-back walk it refines. */
module Parser {
  import opened Prelude
  import opened SizeProvider

  /** A property_info: where a property's bytes are. Address 0 is how "not found" is told apart. */
  datatype Location = Location(address: nat, index: nat, length: nat) {
    predicate Found() {
      address != 0
    }
  }

  const NOWHERE := Location(0, 0, 0)

  /** find_property returns a location or throws std::out_of_range. */
  datatype Lookup = Returned(location: Location) | OutOfRange

  // ---------------------------------------------------------------------------------------------
  // The reference: no cache, no hint state, walk the blob from its first byte every time.

  /** Where property i starts, if everything before it fits in the record. */
  function StartOf(r: EventRecord, i: nat): (start: Option<nat>)
    requires i <= |r.props|
    ensures start.Some? ==> start.value <= |r.data|
  {
    if i == 0 then Some(0)
    else match StartOf(r, i - 1)
      case None => None
      case Some(prev) =>
        var next := prev + PropertySize(r, prev, r.props[i - 1]);
        if next > |r.data| then None else Some(next)
  }

  function WalkTo(r: EventRecord, i: nat): Lookup
    requires i < |r.props|
  {
    match (StartOf(r, i), StartOf(r, i + 1))
    case (Some(start), Some(end)) => Returned(Location(r.userData + start, i, end - start))
    case (_, _) => OutOfRange
  }

  /** The first property called `name`, scanning cyclically from `hint`; |props| if there is none. */
  function Resolve(props: seq<PropertyInfo>, name: string, hint: nat): (i: nat)
    ensures i <= |props|
    ensures i < |props| ==> props[i].name == name
  {
    if props == [] then 0 else ResolveFrom(props, name, if hint >= |props| then 0 else hint, 0)
  }

  /** The n-th index of a cyclic scan. */
  function Probe(hint: nat, n: nat, total: nat): (i: nat)
    requires hint < total && n < total
    ensures i == if hint + n < total then hint + n else hint + n - total
  {
    ModUnique(hint + n, total, if hint + n < total then 0 else 1, if hint + n < total then hint + n
      else hint + n - total);
    (hint + n) % total
  }

  function ResolveFrom(props: seq<PropertyInfo>, name: string, hint: nat, n: nat): (i: nat)
    requires hint < |props| && n <= |props|
    ensures i <= |props|
    ensures i < |props| ==> props[i].name == name
    decreases |props| - n
  {
    if n == |props| then |props|
    else if props[Probe(hint, n, |props|)].name == name then Probe(hint, n, |props|)
    else ResolveFrom(props, name, hint, n + 1)
  }

  /** What a walk from the first byte finds for `name`. */
  function EagerFind(r: EventRecord, name: string, hint: nat): Lookup {
    var i := Resolve(r.props, name, hint);
    if i == |r.props| then Returned(NOWHERE) else WalkTo(r, i)
  }

  function NextHint(props: seq<PropertyInfo>, name: string, hint: nat, current: nat): nat {
    var i := Resolve(props, name, hint);
    if i == |props| then current else (i + 1) % |props|
  }

  // ---------------------------------------------------------------------------------------------
  // Interpreting the bytes of a located property.

  datatype Request = AsScalar(size: nat) | AsBool | AsWide | AsNarrow | AsPointer | AsBinary

  datatype Parsed =
    | Bytes(bytes: seq<Byte>) | Flag(flag: bool) | WideText(wide: seq<Wide>) | NarrowText(narrow: seq<Byte>)
    | Address(address: nat)

  /** `BeyondBuffer` stands for a read the blob does not cover, whose result the program does not define. */
  datatype ParseError = DoesNotExist | PastEnd | SizeMismatch | NotAPointer | BeyondBuffer

  /** Length of `text` without the NULs at its end. */
  function ContentLength<T(==)>(text: seq<T>, nul: T): (n: nat)
    ensures n <= |text|
    ensures n > 0 ==> text[n - 1] != nul
    ensures forall k :: n <= k < |text| ==> text[k] == nul
  {
    if text == [] then 0
    else if text[|text| - 1] != nul then |text|
    else ContentLength(text[..|text| - 1], nul)
  }

  method GetStringContentLength<T(==)>(text: seq<T>, nul: T) returns (n: nat)
    ensures n == ContentLength(text, nul)
  {
    var i := |text|;
    while i >= 1
      invariant 0 <= i <= |text|
      invariant ContentLength(text, nul) == ContentLength(text[..i], nul)
    {
      if text[i - 1] != nul {
        return i;
      }
      assert text[..i][..i - 1] == text[..i - 1];
      i := i - 1;
    }
    return 0;
  }

  function DecodeWide(bytes: seq<Byte>): (text: seq<Wide>)
    ensures |text| == |bytes| / 2
  {
    seq(|bytes| / 2, i requires 0 <= i < |bytes| / 2 =>
      var low: int, high: int := bytes[2 * i], bytes[2 * i + 1];
      low + 256 * high)
  }

  /** `bytes` are the property's own, `rest` everything from its first byte to the end of the record. */
  function Interpret(request: Request, bytes: seq<Byte>, rest: seq<Byte>): Result<Parsed, ParseError> {
    match request
    case AsScalar(size) => if size != |bytes| then Err(SizeMismatch) else Ok(Bytes(bytes))
    case AsBool => if |rest| < 4 then Err(BeyondBuffer) else Ok(Flag(rest[..4] != [0, 0, 0, 0]))
    case AsWide => Ok(WideText(DecodeWide(bytes)[..ContentLength(DecodeWide(bytes), 0)]))
    case AsNarrow => Ok(NarrowText(bytes[..ContentLength(bytes, 0)]))
    case AsPointer => if |bytes| == 4 || |bytes| == 8 then Ok(Address(FromLittleEndian(bytes))) else Err(NotAPointer)
    case AsBinary => Ok(Bytes(bytes))
  }

  function Decode(r: EventRecord, request: Request, at: Location): Result<Parsed, ParseError> {
    if !at.Found() then Err(DoesNotExist)
    else if at.address < r.userData || at.address - r.userData + at.length > |r.data| then Err(BeyondBuffer)
    else
      var start := at.address - r.userData;
      Interpret(request, r.data[start..start + at.length], r.data[start..])
  }

  /** `text` is `units` without the NULs at its end. */
  predicate IsStripped<T(==)>(text: seq<T>, units: seq<T>, nul: T) {
    && text <= units
    && (text != [] ==> text[|text| - 1] != nul)
    && forall k :: |text| <= k < |units| ==> units[k] == nul
  }

  /** The property's bytes lie in the record. */
  predicate Inside(r: EventRecord, at: Location) {
    at.Found() && r.userData <= at.address && at.address - r.userData + at.length <= |r.data|
  }

  method DecodeAt(r: EventRecord, request: Request, at: Location) returns (value: Result<Parsed, ParseError>)
    ensures value == Decode(r, request, at)
    ensures value == Err(DoesNotExist) <==> !at.Found()
    ensures value.Ok? ==> Inside(r, at)
    ensures Inside(r, at) ==>
              var start := at.address - r.userData;
              var bytes := r.data[start..start + at.length];
              match request
              case AsScalar(size) => value == if size == at.length then Ok(Bytes(bytes)) else Err(SizeMismatch)
              case AsBool => (value.Ok? <==> start + 4 <= |r.data|)
                             && (value == Ok(Flag(true)) <==>
                               start + 4 <= |r.data| && exists k :: start <= k < start + 4 && r.data[k] != 0)
              case AsWide => value.Ok? && value.value.WideText? && IsStripped(value.value.wide, DecodeWide(bytes), 0)
              case AsNarrow => value.Ok? && value.value.NarrowText? && IsStripped(value.value.narrow, bytes, 0)
              case AsPointer => (value.Ok? <==> at.length == 4 || at.length == 8)
                                && (value.Ok? ==> value.value == Address(FromLittleEndian(bytes)))
                                && (value.Err? ==> value.error == NotAPointer)
              case AsBinary => value == Ok(Bytes(bytes))
  {
    hide DecodeWide;
    hide FromLittleEndian;
    if !at.Found() {
      return Err(DoesNotExist);
    }
    if at.address < r.userData || at.address - r.userData + at.length > |r.data| {
      return Err(BeyondBuffer);
    }
    var start := at.address - r.userData;
    var bytes := r.data[start..start + at.length];
    match request {
      case AsScalar(size) =>
        if size != at.length {
          return Err(SizeMismatch);
        }
        value := Ok(Bytes(bytes));
      case AsBool =>
        if start + 4 > |r.data| {
          return Err(BeyondBuffer);
        }
        value := Ok(Flag(r.data[start] != 0 || r.data[start + 1] != 0 || r.data[start + 2] != 0
          || r.data[start + 3] != 0));
        assert r.data[start..][..4] == [r.data[start], r.data[start + 1], r.data[start + 2], r.data[start + 3]];
      case AsWide =>
        var n := GetStringContentLength(DecodeWide(bytes), 0);
        value := Ok(WideText(DecodeWide(bytes)[..n]));
      case AsNarrow =>
        var n := GetStringContentLength(bytes, 0);
        value := Ok(NarrowText(bytes[..n]));
      case AsPointer =>
        if at.length != 4 && at.length != 8 {
          return Err(NotAPointer);
        }
        value := Ok(Address(FromLittleEndian(bytes)));
      case AsBinary =>
        value := Ok(Bytes(bytes));
    }
  }

  function ParseLookup(r: EventRecord, request: Request, found: Lookup): Result<Parsed, ParseError> {
    match found
    case OutOfRange => Err(PastEnd)
    case Returned(at) => Decode(r, request, at)
  }

  /** What `parse` returns when it is asked out of the blue, with an empty cache. */
  function EagerParse(r: EventRecord, name: string, hint: nat, request: Request): Result<Parsed, ParseError> {
    ParseLookup(r, request, EagerFind(r, name, hint))
  }

  // ---------------------------------------------------------------------------------------------
  // Facts about the reference.

  /** Every located property lies inside the record; its predecessors are located too and end before it. */
  lemma {:induction false} WalkedRangesTile(r: EventRecord, i: nat, j: nat)
    requires j <= i < |r.props| && WalkTo(r, i).Returned?
    ensures WalkTo(r, j).Returned?
    ensures var at, earlier := WalkTo(r, i).location, WalkTo(r, j).location;
            && at.index == i
            && r.userData <= at.address && at.address + at.length <= r.userData + |r.data|
            && (j < i ==> earlier.address + earlier.length <= at.address)
            && (j + 1 == i ==> earlier.address + earlier.length == at.address)
  {
    if j < i {
      WalkedRangesTile(r, i - 1, j);
    }
  }

  /** A walk that falls off the record falls off it for every later property as well. */
  lemma {:induction false} FailureIsPermanent(r: EventRecord, i: nat, j: nat)
    requires i <= j <= |r.props|
    requires StartOf(r, i).None?
    ensures StartOf(r, j).None?
    decreases j
  {
    if i < j {
      FailureIsPermanent(r, i, j - 1);
    }
  }

  /** A lookup whose predecessors fit answers with the range of a property of n bytes, or with "past the end". */
  function RangeAt(r: EventRecord, start: nat, i: nat, n: nat): Lookup {
    if start + n <= |r.data| then Returned(Location(r.userData + start, i, n)) else OutOfRange
  }

  /** Where a property ends is decided by its declared length, by the header for pointers, by its terminator, or by
      TDH - and by the record, which it must not leave. */
  lemma LocatedRange(r: EventRecord, i: nat, start: nat)
    requires i < |r.props| && StartOf(r, i) == Some(start)
    ensures var p := r.props[i];
            && (Declared(p) ==>
                  WalkTo(r, i) == RangeAt(r, start, i, if p.inType.Pointer? then (if r.header32 then 4 else 8)
                                                       else p.length))
            && (!Declared(p) && (!Scanned(p) || start == |r.data|) ==>
                  WalkTo(r, i) == RangeAt(r, start, i, r.tdhSize(p.name)))
            && (Scanned(p) && start < |r.data| ==>
                  exists n ::
                    && WalkTo(r, i) == RangeAt(r, start, i, n)
                    && if p.inType.UnicodeString? then WideEnds(r.data, start, n) else NarrowEnds(r.data, start, n))
  {
    PropertySizeIs(r, start, r.props[i]);
    var n := PropertySize(r, start, r.props[i]);
    hide PropertySize;
    assert WalkTo(r, i) == RangeAt(r, start, i, n);
  }

  predicate NameOccursOnce(props: seq<PropertyInfo>, name: string) {
    exists i :: 0 <= i < |props| && props[i].name == name && forall j :: 0 <= j < |props| && props[j].name == name ==>
      j == i
  }

  lemma {:induction false} ResolveFromFinds(props: seq<PropertyInfo>, name: string, hint: nat, n: nat, m: nat)
    requires hint < |props| && n <= m < |props|
    requires props[Probe(hint, m, |props|)].name == name
    requires forall k :: n <= k < m ==> props[Probe(hint, k, |props|)].name != name
    ensures ResolveFrom(props, name, hint, n) == Probe(hint, m, |props|)
    decreases m - n
  {
    if n < m {
      ResolveFromFinds(props, name, hint, n + 1, m);
    }
  }

  lemma {:induction false} ResolveFromMisses(props: seq<PropertyInfo>, name: string, hint: nat, n: nat, i: nat)
    requires hint < |props| && n <= |props|
    requires i < |props| && props[i].name == name
    requires if i >= hint then i - hint >= n else i + |props| - hint >= n
    ensures ResolveFrom(props, name, hint, n) < |props|
    decreases |props| - n
  {
    var m := if i >= hint then i - hint else i + |props| - hint;
    assert Probe(hint, m, |props|) == i;
    if n < m && props[Probe(hint, n, |props|)].name != name {
      ResolveFromMisses(props, name, hint, n + 1, i);
    }
  }

  /** A scan misses a name exactly when no property carries it, whatever the hint. */
  lemma ResolveIsComplete(props: seq<PropertyInfo>, name: string, hint: nat)
    ensures Resolve(props, name, hint) == |props| <==> forall i :: 0 <= i < |props| ==> props[i].name != name
  {
    if props != [] {
      var h := if hint >= |props| then 0 else hint;
      if i :| 0 <= i < |props| && props[i].name == name {
        ResolveFromMisses(props, name, h, 0, i);
      }
    }
  }

  /** The property found is the first of its name at or behind the hint, going around. */
  lemma ResolveIsFirst(props: seq<PropertyInfo>, name: string, hint: nat)
    requires Resolve(props, name, hint) < |props|
    ensures var from, i := if hint < |props| then hint else 0, Resolve(props, name, hint);
            if i >= from then forall k :: from <= k < i ==> props[k].name != name
            else (forall k :: from <= k < |props| ==> props[k].name != name)
                 && (forall k :: 0 <= k < i ==> props[k].name != name)
  {
    var from, total := if hint < |props| then hint else 0, |props|;
    var n := ResolveFromFirst(props, name, from, 0);
    forall k | 0 <= k < total && (if k >= from then k - from else k + total - from) < n
      ensures props[k].name != name
    {
      assert Probe(from, if k >= from then k - from else k + total - from, total) == k;
    }
  }

  /** The scan stops at the first probe that carries the name. */
  lemma {:induction false} ResolveFromFirst(props: seq<PropertyInfo>, name: string, hint: nat, n: nat)
      returns (m: nat)
    requires hint < |props| && n <= |props| && ResolveFrom(props, name, hint, n) < |props|
    ensures n <= m < |props| && ResolveFrom(props, name, hint, n) == Probe(hint, m, |props|)
    ensures forall k :: n <= k < m ==> props[Probe(hint, k, |props|)].name != name
    decreases |props| - n
  {
    m := n;
    if props[Probe(hint, n, |props|)].name != name {
      m := ResolveFromFirst(props, name, hint, n + 1);
    }
  }

  /** The remembered hint moves right behind the property found. */
  lemma NextHintIs(props: seq<PropertyInfo>, name: string, hint: nat, current: nat)
    ensures var i := Resolve(props, name, hint);
            NextHint(props, name, hint, current) ==
              if i == |props| then current else if i + 1 == |props| then 0 else i + 1
  {
    var i, total := Resolve(props, name, hint), |props|;
    if i < total {
      ModUnique(i + 1, total, if i + 1 == total then 1 else 0, if i + 1 == total then 0 else i + 1);
    }
  }

  /** So asking again for the same name finds the next property of that name, going around. */
  lemma AskingAgainMovesOn(props: seq<PropertyInfo>, name: string, hint: nat, current: nat)
    requires Resolve(props, name, hint) < |props|
    ensures var i := Resolve(props, name, hint);
            var j := Resolve(props, name, NextHint(props, name, hint, current));
            && j < |props| && props[j].name == name
            && if j > i then forall k :: i < k < j ==> props[k].name != name
               else (forall k :: i < k < |props| ==> props[k].name != name)
                    && (forall k :: 0 <= k < j ==> props[k].name != name)
  {
    var i := Resolve(props, name, hint);
    NextHintIs(props, name, hint, current);
    ResolveIsComplete(props, name, NextHint(props, name, hint, current));
    ResolveIsFirst(props, name, NextHint(props, name, hint, current));
  }

  lemma ResolveAtHint(props: seq<PropertyInfo>, name: string, i: nat)
    requires i < |props| && props[i].name == name
    ensures Resolve(props, name, i) == i
  {
    ResolveFromFinds(props, name, i, 0, 0);
  }

  /** The hint never matters for a name exactly when at most one property carries it. */
  lemma HintIsIrrelevant(props: seq<PropertyInfo>, name: string)
    ensures (forall h1: nat, h2: nat :: Resolve(props, name, h1) == Resolve(props, name, h2))
            <==> (NameOccursOnce(props, name) || forall i :: 0 <= i < |props| ==> props[i].name != name)
  {
    hide Resolve;
    forall h: nat { ResolveIsComplete(props, name, h); }
    if i :| 0 <= i < |props| && props[i].name == name {
      if j :| 0 <= j < |props| && props[j].name == name && j != i {
        ResolveAtHint(props, name, i);
        ResolveAtHint(props, name, j);
      } else {
        forall h: nat ensures Resolve(props, name, h) == i { ResolveIsComplete(props, name, h); }
      }
    }
  }

  // ---------------------------------------------------------------------------------------------
  // The program's parser.

  class Parser {
    const record: EventRecord
    /** pBufferIndex_, as an offset into the record's data. */
    var bufferIndex: nat
    var lastPropertyIndex: nat
    var nextHint: nat
    var propertyCache: seq<Location>

    /** The cache holds what a walk would find for the first lastPropertyIndex properties. */
    ghost predicate Valid()
      reads this
    {
      && record.Valid()
      && |propertyCache| == |record.props|
      && lastPropertyIndex <= |record.props|
      && StartOf(record, lastPropertyIndex) == Some(bufferIndex)
      && forall i :: 0 <= i < lastPropertyIndex ==> WalkTo(record, i) == Returned(propertyCache[i])
    }

    constructor (r: EventRecord)
      requires r.Valid()
      ensures Valid() && record == r && nextHint == 0
    {
      record := r;
      bufferIndex := 0;
      lastPropertyIndex := 0;
      nextHint := 0;
      propertyCache := seq(|r.props|, _ => NOWHERE);
    }

    /** The hinted scan for a name. */
    method ResolveIndex(name: string, hint: nat) returns (index: nat)
      ensures index == Resolve(record.props, name, hint)
    {
      var total := |record.props|;
      if total == 0 {
        return 0;
      }
      var start := if hint >= total then 0 else hint;
      index := total;
      var n := 0;
      while n < total && index == total
        invariant 0 <= n <= total && index <= total
        invariant Resolve(record.props, name, hint) ==
                  if index < total then index else ResolveFrom(record.props, name, start, n)
        decreases total - n, index
      {
        var i := Probe(start, n, total);
        if record.props[i].name == name {
          index := i;
        }
        n := n + 1;
      }
    }

    /** The forward walk: remembers every property up to `index`, or stops where one overruns the record. */
    method WalkForward(index: nat) returns (reached: bool)
      requires Valid() && index < |record.props|
      modifies this`bufferIndex, this`lastPropertyIndex, this`propertyCache
      ensures Valid()
      ensures lastPropertyIndex >= old(lastPropertyIndex)
      ensures reached <==> WalkTo(record, index).Returned?
      ensures reached ==> index < lastPropertyIndex
    {
      while lastPropertyIndex <= index
        invariant Valid()
        invariant old(lastPropertyIndex) <= lastPropertyIndex
        decreases index + 1 - lastPropertyIndex
      {
        var size := GetPropertySize(record, bufferIndex, record.props[lastPropertyIndex]);
        if bufferIndex + size > |record.data| {
          FailureIsPermanent(record, lastPropertyIndex + 1, index + 1);
          return false;
        }
        var at := Location(record.userData + bufferIndex, lastPropertyIndex, size);
        assert WalkTo(record, lastPropertyIndex) == Returned(at);
        propertyCache := propertyCache[lastPropertyIndex := at];
        bufferIndex := bufferIndex + size;
        lastPropertyIndex := lastPropertyIndex + 1;
      }
      return true;
    }

    /** One lookup, with any cache and any hint, answers as the reference walk does. */
    method FindProperty(name: string, hint: nat) returns (found: Lookup)
      requires Valid()
      modifies this
      ensures Valid()
      ensures found == EagerFind(record, name, hint)
      ensures nextHint == NextHint(record.props, name, hint, old(nextHint))
      ensures lastPropertyIndex >= old(lastPropertyIndex)
      ensures (forall i :: 0 <= i < |record.props| ==> record.props[i].name != name) ==>
                found == Returned(NOWHERE) && nextHint == old(nextHint)
    {
      ResolveIsComplete(record.props, name, hint);
      var index := ResolveIndex(name, hint);
      if index >= |record.props| {
        return Returned(NOWHERE);
      }
      nextHint := (index + 1) % |record.props|;
      if index < lastPropertyIndex {
        return Returned(propertyCache[index]);
      }
      var reached := WalkForward(index);
      if !reached {
        return OutOfRange;
      }
      return Returned(propertyCache[index]);
    }

    method Parse(name: string, request: Request) returns (value: Result<Parsed, ParseError>)
      requires Valid()
      modifies this
      ensures Valid()
      ensures value == EagerParse(record, name, old(nextHint), request)
      ensures nextHint == NextHint(record.props, name, old(nextHint), old(nextHint))
      ensures (forall i :: 0 <= i < |record.props| ==> record.props[i].name != name) ==> value == Err(DoesNotExist)
    {
      var found := FindProperty(name, nextHint);
      if found == OutOfRange {
        return Err(PastEnd);
      }
      value := DecodeAt(record, request, found.location);
    }

    /** try_parse with a hint: the hint replaces the remembered one, failures become `false`. */
    method TryParse(name: string, request: Request, hint: nat, out: Parsed) returns (ok: bool, value: Parsed)
      requires Valid()
      modifies this
      ensures Valid()
      ensures ok <==> EagerParse(record, name, hint, request).Ok?
      ensures value == if ok then EagerParse(record, name, hint, request).value else out
      ensures nextHint == NextHint(record.props, name, hint, hint)
    {
      nextHint := hint;
      var parsed := Parse(name, request);
      match parsed {
        case Ok(v) => return true, v;
        case Err(_) => return false, out;
      }
    }
  }

  /** Any sequence of lookups with any hints, on any parser that has been used before in any way:
      each answer is the reference's, also after a lookup that threw. */
  method LookupAll(p: Parser, names: seq<string>, hints: seq<nat>) returns (answers: seq<Lookup>)
    requires p.Valid() && |names| == |hints|
    modifies p
    ensures p.Valid() && |answers| == |names|
    ensures forall i :: 0 <= i < |names| ==> answers[i] == EagerFind(p.record, names[i], hints[i])
  {
    answers := [];
    for i := 0 to |names|
      invariant p.Valid() && |answers| == i
      invariant forall k :: 0 <= k < i ==> answers[k] == EagerFind(p.record, names[k], hints[k])
    {
      var found := p.FindProperty(names[i], hints[i]);
      answers := answers + [found];
    }
  }
}
