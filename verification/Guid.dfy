/** GUID text: the 36-character parser and the printer are inverse to each other. */
module Guid {
  import opened Prelude

  datatype Guid = Guid(data1: nat, data2: nat, data3: nat, data4: seq<Byte>) {
    predicate Valid() {
      data1 < U32 && data2 < U16 && data3 < U16 && |data4| == 8
    }
  }

  datatype GuidError = BadLength | MissingHyphen | NotHex

  const TEXT_LENGTH := 36
  const DATA1 := 0
  const DATA2 := 9
  const DATA3 := 14
  const DATA4_HEAD := 19
  const DATA4_TAIL := 24

  function HexValue(c: char): (v: Option<nat>)
    ensures v.Some? ==> v.value < 16
  {
    if '0' <= c <= '9' then Some(c as int % 16)
    else if 'A' <= c <= 'F' || 'a' <= c <= 'f' then Some(c as int % 16 + 9)
    else None
  }

  /** The hex digits and what they are worth, in either case. */
  lemma DigitsAreHex(c: char)
    ensures HexValue(c) ==
            if '0' <= c <= '9' then Some(c as int - '0' as int)
            else if 'a' <= c <= 'f' then Some(c as int - 'a' as int + 10)
            else if 'A' <= c <= 'F' then Some(c as int - 'A' as int + 10)
            else None
  {
  }

  function Octet(s: string, at: nat): Option<Byte>
    requires at + 2 <= |s|
  {
    match (HexValue(s[at]), HexValue(s[at + 1]))
    case (Some(high), Some(low)) => Some(16 * high + low)
    case (_, _) => None
  }

  /** The number written big-endian in `octets` pairs of hex digits. */
  function Number(s: string, at: nat, octets: nat): (n: Option<nat>)
    requires at + 2 * octets <= |s|
    ensures n.Some? ==> n.value < Pow256(octets)
  {
    if octets == 0 then Some(0)
    else match (Number(s, at, octets - 1), Octet(s, at + 2 * (octets - 1)))
      case (Some(high), Some(low)) => Some(256 * high + low)
      case (_, _) => None
  }

  function OctetList(s: string, at: nat, octets: nat): (bytes: Option<seq<Byte>>)
    requires at + 2 * octets <= |s|
    ensures bytes.Some? ==> |bytes.value| == octets
  {
    if octets == 0 then Some([])
    else match (OctetList(s, at, octets - 1), Octet(s, at + 2 * (octets - 1)))
      case (Some(front), Some(last)) => Some(front + [last])
      case (_, _) => None
  }

  predicate HyphensInPlace(s: string)
    requires |s| == TEXT_LENGTH
  {
    s[DATA2 - 1] == s[DATA3 - 1] == s[DATA4_HEAD - 1] == s[DATA4_TAIL - 1] == '-'
  }

  function Parse(s: string): Result<Guid, GuidError> {
    if |s| != TEXT_LENGTH then Err(BadLength)
    else if !HyphensInPlace(s) then Err(MissingHyphen)
    else
      var d1, d2, d3 := Number(s, DATA1, 4), Number(s, DATA2, 2), Number(s, DATA3, 2);
      var head, tail := OctetList(s, DATA4_HEAD, 2), OctetList(s, DATA4_TAIL, 6);
      if d1.Some? && d2.Some? && d3.Some? && head.Some? && tail.Some?
      then Ok(Guid(d1.value, d2.value, d3.value, head.value + tail.value))
      else Err(NotHex)
  }

  method HexOctetToByte(s: string, at: nat) returns (octet: Option<Byte>)
    requires at + 2 <= |s|
    ensures octet == Octet(s, at)
  {
    var value: int;
    var msd, lsd := s[at], s[at + 1];
    if '0' <= msd <= '9' {
      value := msd as int % 16 * 16;
    } else if 'A' <= msd <= 'F' || 'a' <= msd <= 'f' {
      value := (msd as int % 16 + 9) * 16;
    } else {
      return None;
    }
    if '0' <= lsd <= '9' {
      value := value + lsd as int % 16;
    } else if 'A' <= lsd <= 'F' || 'a' <= lsd <= 'f' {
      value := value + (lsd as int % 16 + 9);
    } else {
      return None;
    }
    return Some(value);
  }

  lemma {:induction false} NumberStaysNone(s: string, at: nat, i: nat, octets: nat)
    requires at + 2 * octets <= |s| && i <= octets
    ensures Number(s, at, i).None? ==> Number(s, at, octets).None?
    ensures OctetList(s, at, i).None? ==> OctetList(s, at, octets).None?
    decreases octets
  {
    if i < octets {
      NumberStaysNone(s, at, i, octets - 1);
    }
  }

  method HexStringToNumber(s: string, at: nat, octets: nat) returns (n: Option<nat>)
    requires at + 2 * octets <= |s|
    ensures n == Number(s, at, octets)
  {
    hide Octet;
    var value: nat := 0;
    var i := 0;
    while i < octets
      invariant i <= octets && Number(s, at, i) == Some(value)
    {
      var octet := HexOctetToByte(s, at + i * 2);
      i := i + 1;
      match octet {
        case None =>
          NumberStaysNone(s, at, i, octets);
          return None;
        case Some(byte) => value := 256 * value + byte;
      }
    }
    return Some(value);
  }

  method HexStringToBytes(s: string, at: nat, octets: nat) returns (bytes: Option<seq<Byte>>)
    requires at + 2 * octets <= |s|
    ensures bytes == OctetList(s, at, octets)
  {
    var value := [];
    var i := 0;
    while i < octets
      invariant i <= octets && OctetList(s, at, i) == Some(value)
    {
      var octet := HexOctetToByte(s, at + i * 2);
      i := i + 1;
      match octet {
        case None =>
          NumberStaysNone(s, at, i, octets);
          return None;
        case Some(byte) => value := value + [byte];
      }
    }
    return Some(value);
  }

  method ParseGuid(s: string) returns (g: Result<Guid, GuidError>)
    ensures g == Parse(s)
    ensures g == Err(BadLength) <==> |s| != 36
    ensures g == Err(MissingHyphen) <==>
              |s| == 36 && !(s[8] == '-' && s[13] == '-' && s[18] == '-' && s[23] == '-')
  {
    if |s| != TEXT_LENGTH {
      return Err(BadLength);
    }
    if s[DATA2 - 1] != '-' || s[DATA3 - 1] != '-' || s[DATA4_HEAD - 1] != '-' || s[DATA4_TAIL - 1] != '-' {
      return Err(MissingHyphen);
    }
    var d1 := HexStringToNumber(s, DATA1, 4);
    if d1.None? { return Err(NotHex); }
    var d2 := HexStringToNumber(s, DATA2, 2);
    if d2.None? { return Err(NotHex); }
    var d3 := HexStringToNumber(s, DATA3, 2);
    if d3.None? { return Err(NotHex); }
    var head := HexStringToBytes(s, DATA4_HEAD, 2);
    if head.None? { return Err(NotHex); }
    var tail := HexStringToBytes(s, DATA4_TAIL, 6);
    if tail.None? { return Err(NotHex); }
    return Ok(Guid(d1.value, d2.value, d3.value, head.value + tail.value));
  }

  // ---------------------------------------------------------------------------------------------

  function HexDigit(n: nat): (c: char)
    requires n < 16
    ensures HexValue(c) == Some(n)
  {
    if n < 10 then ('0' as int + n) as char else ('a' as int + n - 10) as char
  }

  /** n in exactly `digits` lower-case hex digits, as %0<digits>x prints it. */
  function Hex(n: nat, digits: nat): (s: string)
    ensures |s| == digits
  {
    if digits == 0 then "" else Hex(n / 16, digits - 1) + [HexDigit(n % 16)]
  }

  lemma HexPair(n: nat, digits: nat)
    requires digits >= 2
    ensures Hex(n, digits) == Hex(n / 256, digits - 2) + [HexDigit(n / 16 % 16), HexDigit(n % 16)]
  {
    hide HexValue;
    hide HexDigit;
    NibbleSplit(n);
    assert Hex(n, digits) == (Hex(n / 16 / 16, digits - 2) + [HexDigit(n / 16 % 16)]) + [HexDigit(n % 16)];
  }

  lemma HexOfByte(b: Byte)
    ensures Hex(b, 2) == [HexDigit(b / 16), HexDigit(b % 16)]
  {
    hide HexValue;
    hide HexDigit;
    HexPair(b, 2);
    NibbleSplit(b);
    assert Hex(b / 256, 0) == "";
  }

  lemma HexAppend(high: nat, low: Byte, digits: nat)
    requires digits >= 2
    ensures Hex(256 * high + low, digits) == Hex(high, digits - 2) + Hex(low, 2)
  {
    hide Hex;
    hide HexDigit;
    hide HexValue;
    var n := 256 * high + low;
    HexPair(n, digits);
    HexOfByte(low);
    ModUnique(n, 256, high, low);
    NibbleSplit(n);
  }

  lemma NibbleSplit(n: nat)
    ensures (n % 256) / 16 == n / 16 % 16 && (n % 256) % 16 == n % 16
    ensures n / 16 / 16 == n / 256
  {
    var a, r := n / 256, n % 256;
    ModUnique(n, 16, 16 * a + r / 16, r % 16);
    ModUnique(16 * a + r / 16, 16, a, r / 16);
  }

  function HexBytes(bytes: seq<Byte>): (s: string)
    ensures |s| == 2 * |bytes|
  {
    if bytes == [] then "" else HexBytes(bytes[..|bytes| - 1]) + Hex(bytes[|bytes| - 1], 2)
  }

  function Print(g: Guid): (s: string)
    requires g.Valid()
    ensures |s| == TEXT_LENGTH
  {
    Hex(g.data1, 8) + "-" + Hex(g.data2, 4) + "-" + Hex(g.data3, 4) + "-" + HexBytes(g.data4[..2]) + "-"
      + HexBytes(g.data4[2..])
  }

  function Lower(s: string): (t: string)
    ensures |t| == |s|
  {
    seq(|s|, i requires 0 <= i < |s| => if 'A' <= s[i] <= 'Z' then (s[i] as int + 32) as char else s[i])
  }

  predicate SameAt(s: string, at: nat, part: string) {
    at + |part| <= |s| && s[at..at + |part|] == part
  }

  lemma SplitAt(s: string, at: nat, a: string, b: string)
    requires SameAt(s, at, a + b)
    ensures SameAt(s, at, a) && SameAt(s, at + |a|, b)
  {
    assert s[at..at + |a|] == (a + b)[..|a|] == a;
    assert s[at + |a|..at + |a| + |b|] == (a + b)[|a|..] == b;
  }

  lemma OctetIsRead(s: string, at: nat, b: Byte)
    requires at + 2 <= |s| && s[at..at + 2] == Hex(b, 2)
    ensures Octet(s, at) == Some(b)
  {
    hide Hex;
    HexOfByte(b);
    assert s[at] == s[at..at + 2][0] && s[at + 1] == s[at..at + 2][1];
  }

  lemma {:induction false} HexIsRead(s: string, at: nat, n: nat, octets: nat)
    requires n < Pow256(octets) && SameAt(s, at, Hex(n, 2 * octets))
    ensures Number(s, at, octets) == Some(n)
    decreases octets
  {
    hide Hex;
    hide HexDigit;
    hide HexValue;
    hide Octet;
    if octets > 0 {
      var h := Hex(n, 2 * octets);
      HexPair(n, 2 * octets);
      var b: Byte := n % 256;
      HexOfByte(b);
      NibbleSplit(n);
      assert h == Hex(n / 256, 2 * octets - 2) + Hex(b, 2);
      SplitAt(s, at, Hex(n / 256, 2 * octets - 2), Hex(b, 2));
      OctetIsRead(s, at + 2 * octets - 2, b);
      HexIsRead(s, at, n / 256, octets - 1);
    }
  }

  lemma {:induction false} HexBytesAreRead(s: string, at: nat, bytes: seq<Byte>)
    requires SameAt(s, at, HexBytes(bytes))
    ensures OctetList(s, at, |bytes|) == Some(bytes)
    decreases |bytes|
  {
    hide Hex;
    hide HexValue;
    hide Octet;
    if bytes != [] {
      var n := |bytes| - 1;
      SplitAt(s, at, HexBytes(bytes[..n]), Hex(bytes[n], 2));
      HexBytesAreRead(s, at, bytes[..n]);
      OctetIsRead(s, at + 2 * n, bytes[n]);
      assert bytes == bytes[..n] + [bytes[n]];
    }
  }

  /** Every GUID survives printing and parsing. */
  lemma PrintedGuidParses(g: Guid)
    requires g.Valid()
    ensures Parse(Print(g)) == Ok(g)
  {
    hide Hex;
    hide HexBytes;
    hide Number;
    hide OctetList;
    var s := Print(g);
    PowersOf256();
    var a, b, c, d, e := Hex(g.data1, 8), Hex(g.data2, 4), Hex(g.data3, 4), HexBytes(g.data4[..2]),
      HexBytes(g.data4[2..]);
    assert s[DATA1..8] == a && s[DATA2..13] == b && s[DATA3..18] == c && s[DATA4_HEAD..23] == d
      && s[DATA4_TAIL..36] == e;
    HexIsRead(s, DATA1, g.data1, 4);
    HexIsRead(s, DATA2, g.data2, 2);
    HexIsRead(s, DATA3, g.data3, 2);
    HexBytesAreRead(s, DATA4_HEAD, g.data4[..2]);
    HexBytesAreRead(s, DATA4_TAIL, g.data4[2..]);
    assert g.data4[..2] + g.data4[2..] == g.data4;
  }

  lemma PowersOf256()
    ensures Pow256(4) == U32 && Pow256(2) == U16
  {
  }

  /** A digit pair that is read prints back in lower case. */
  lemma OctetPrints(s: string, at: nat)
    requires at + 2 <= |s| && Octet(s, at).Some?
    ensures Hex(Octet(s, at).value, 2) == Lower(s)[at..at + 2]
  {
    hide Hex;
    hide HexDigit;
    HexOfByte(Octet(s, at).value);
    ModUnique(Octet(s, at).value, 16, HexValue(s[at]).value, HexValue(s[at + 1]).value);
    hide HexValue;
    DigitPrints(s[at]);
    DigitPrints(s[at + 1]);
    assert Lower(s)[at..at + 2] == [Lower([s[at]])[0], Lower([s[at + 1]])[0]];
  }

  lemma DigitPrints(c: char)
    requires HexValue(c).Some?
    ensures [HexDigit(HexValue(c).value)] == Lower([c])
  {
  }

  lemma {:induction false} NumberPrints(s: string, at: nat, octets: nat)
    requires at + 2 * octets <= |s| && Number(s, at, octets).Some?
    ensures Hex(Number(s, at, octets).value, 2 * octets) == Lower(s)[at..at + 2 * octets]
    decreases octets
  {
    hide Hex;
    hide HexValue;
    hide Octet;
    hide Lower;
    var part := Lower(s)[at..at + 2 * octets];
    if octets == 0 {
      assert Hex(Number(s, at, 0).value, 0) == part;
    } else {
      var high, low := Number(s, at, octets - 1).value, Octet(s, at + 2 * (octets - 1)).value;
      var n := 256 * high + low;
      NumberPrints(s, at, octets - 1);
      OctetPrints(s, at + 2 * (octets - 1));
      HexAppend(high, low, 2 * octets);
      assert part == Lower(s)[at..at + 2 * octets - 2] + Lower(s)[at + 2 * octets - 2..at + 2 * octets];
    }
  }

  lemma {:induction false} OctetListPrints(s: string, at: nat, octets: nat)
    requires at + 2 * octets <= |s| && OctetList(s, at, octets).Some?
    ensures HexBytes(OctetList(s, at, octets).value) == Lower(s)[at..at + 2 * octets]
    decreases octets
  {
    hide Hex;
    hide Octet;
    hide Lower;
    if octets > 0 {
      var bytes := OctetList(s, at, octets).value;
      assert bytes[..octets - 1] == OctetList(s, at, octets - 1).value;
      OctetListPrints(s, at, octets - 1);
      OctetPrints(s, at + 2 * (octets - 1));
      assert Lower(s)[at..at + 2 * octets]
        == Lower(s)[at..at + 2 * octets - 2] + Lower(s)[at + 2 * octets - 2..at + 2 * octets];
    }
  }

  /** Every accepted text is its GUID's print, up to the case of its letters. */
  lemma ParsedGuidPrints(s: string)
    requires Parse(s).Ok?
    ensures Parse(s).value.Valid()
    ensures Print(Parse(s).value) == Lower(s)
  {
    hide Hex;
    hide HexBytes;
    hide Number;
    hide OctetList;
    var g := Parse(s).value;
    var t := Lower(s);
    assert t[8] == t[13] == t[18] == t[23] == '-';
    hide Lower;
    PowersOf256();
    NumberPrints(s, DATA1, 4);
    NumberPrints(s, DATA2, 2);
    NumberPrints(s, DATA3, 2);
    OctetListPrints(s, DATA4_HEAD, 2);
    OctetListPrints(s, DATA4_TAIL, 6);
    assert g.data4[..2] == OctetList(s, DATA4_HEAD, 2).value;
    assert g.data4[2..] == OctetList(s, DATA4_TAIL, 6).value;
    assert t == t[0..8] + [t[8]] + t[9..13] + [t[13]] + t[14..18] + [t[18]] + t[19..23] + [t[23]] + t[24..36];
  }

  /** What a hex digit is worth. */
  function Worth(c: char): int {
    if '0' <= c <= '9' then c as int - '0' as int
    else if 'a' <= c <= 'f' then c as int - 'a' as int + 10
    else c as int - 'A' as int + 10
  }

  /** The value of the digit pair at position `at`. */
  function PairAt(s: string, at: nat): int
    requires at + 2 <= |s|
  {
    16 * Worth(s[at]) + Worth(s[at + 1])
  }

  lemma OctetIsPair(s: string, at: nat)
    requires at + 2 <= |s| && Octet(s, at).Some?
    ensures Octet(s, at).value == PairAt(s, at)
  {
    DigitsAreHex(s[at]);
    DigitsAreHex(s[at + 1]);
  }

  /** A number's first pair is its most significant byte. */
  lemma {:induction false} NumberPairs(s: string, at: nat, octets: nat, k: nat)
    requires at + 2 * octets <= |s| && Number(s, at, octets).Some? && k < octets
    ensures Number(s, at, octets).value / Pow256(octets - 1 - k) % 256 == PairAt(s, at + 2 * k)
    decreases octets
  {
    hide Octet;
    hide PairAt;
    var n, low := Number(s, at, octets).value, Octet(s, at + 2 * (octets - 1)).value;
    var high := Number(s, at, octets - 1).value;
    ModUnique(n, 256, high, low);
    if k == octets - 1 {
      OctetIsPair(s, at + 2 * k);
    } else {
      NumberPairs(s, at, octets - 1, k);
      DivideTwice(n, Pow256(octets - 2 - k));
    }
  }

  lemma {:induction false} ListPairs(s: string, at: nat, octets: nat, k: nat)
    requires at + 2 * octets <= |s| && OctetList(s, at, octets).Some? && k < octets
    ensures OctetList(s, at, octets).value[k] == PairAt(s, at + 2 * k)
    decreases octets
  {
    hide Octet;
    hide PairAt;
    if k == octets - 1 {
      OctetIsPair(s, at + 2 * k);
    } else {
      ListPairs(s, at, octets - 1, k);
    }
  }

  /** The pairs from `at` on are the bytes of n, the most significant one first. */
  predicate SpellsNumber(s: string, at: nat, octets: nat, n: nat)
    requires at + 2 * octets <= |s|
  {
    forall k :: 0 <= k < octets ==> n / Pow256(octets - 1 - k) % 256 == PairAt(s, at + 2 * k)
  }

  predicate SpellsBytes(s: string, at: nat, bytes: seq<Byte>)
    requires at + 2 * |bytes| <= |s|
  {
    forall k :: 0 <= k < |bytes| ==> bytes[k] == PairAt(s, at + 2 * k)
  }

  lemma NumberSpells(s: string, at: nat, octets: nat)
    requires at + 2 * octets <= |s|
    ensures Number(s, at, octets).Some? ==> SpellsNumber(s, at, octets, Number(s, at, octets).value)
    ensures OctetList(s, at, octets).Some? ==> SpellsBytes(s, at, OctetList(s, at, octets).value)
  {
    hide Number;
    hide OctetList;
    hide PairAt;
    hide Pow256;
    forall k | 0 <= k < octets
      ensures Number(s, at, octets).Some? ==>
                Number(s, at, octets).value / Pow256(octets - 1 - k) % 256 == PairAt(s, at + 2 * k)
      ensures OctetList(s, at, octets).Some? ==> OctetList(s, at, octets).value[k] == PairAt(s, at + 2 * k)
    {
      if Number(s, at, octets).Some? { NumberPairs(s, at, octets, k); }
      if OctetList(s, at, octets).Some? { ListPairs(s, at, octets, k); }
    }
  }

  /** An accepted text spells the GUID: three numbers from the positions 0, 9 and 14 on, and eight bytes in two groups
      from 19 and 24 on. */
  lemma ParsedGuidSpells(s: string)
    requires Parse(s).Ok?
    ensures |s| == 36 && |Parse(s).value.data4| == 8
    ensures var g := Parse(s).value;
            && SpellsNumber(s, 0, 4, g.data1) && SpellsNumber(s, 9, 2, g.data2) && SpellsNumber(s, 14, 2, g.data3)
            && SpellsBytes(s, 19, g.data4[..2]) && SpellsBytes(s, 24, g.data4[2..])
  {
    NumberSpells(s, 0, 4);
    NumberSpells(s, 9, 2);
    NumberSpells(s, 14, 2);
    NumberSpells(s, 19, 2);
    NumberSpells(s, 24, 6);
    hide Number;
    hide OctetList;
    hide SpellsNumber;
    hide SpellsBytes;
    assert Parse(s).value.data4[..2] == OctetList(s, 19, 2).value;
    assert Parse(s).value.data4[2..] == OctetList(s, 24, 6).value;
  }

  predicate IsHyphenPosition(i: nat) {
    i == DATA2 - 1 || i == DATA3 - 1 || i == DATA4_HEAD - 1 || i == DATA4_TAIL - 1
  }

  /** The 8-4-4-4-12 form of section 4 of RFC 9562, letters in either case. */
  predicate IsGuidText(s: string) {
    && |s| == TEXT_LENGTH
    && forall i :: 0 <= i < TEXT_LENGTH ==> if IsHyphenPosition(i) then s[i] == '-' else HexValue(s[i]).Some?
  }

  lemma {:induction false} NumberNeedsHex(s: string, at: nat, octets: nat)
    requires at + 2 * octets <= |s|
    ensures Number(s, at, octets).Some? <==> forall i :: at <= i < at + 2 * octets ==> HexValue(s[i]).Some?
    ensures OctetList(s, at, octets).Some? <==> forall i :: at <= i < at + 2 * octets ==> HexValue(s[i]).Some?
    decreases octets
  {
    if octets > 0 {
      NumberNeedsHex(s, at, octets - 1);
    }
  }

  /** Exactly the texts of that form are accepted; so the upper-case text of a container id parses, to the same GUID. */
  lemma AcceptedTexts(s: string)
    ensures Parse(s).Ok? <==> IsGuidText(s)
  {
    hide HexValue;
    hide Number;
    hide OctetList;
    if |s| == TEXT_LENGTH {
      NumberNeedsHex(s, DATA1, 4);
      NumberNeedsHex(s, DATA2, 2);
      NumberNeedsHex(s, DATA3, 2);
      NumberNeedsHex(s, DATA4_HEAD, 2);
      NumberNeedsHex(s, DATA4_TAIL, 6);
    }
  }

  /** Two accepted texts name the same GUID exactly when they agree up to case. */
  lemma CaseDoesNotMatter(s: string, t: string)
    requires Parse(s).Ok? && Parse(t).Ok?
    ensures Parse(s) == Parse(t) <==> Lower(s) == Lower(t)
  {
    ParsedGuidPrints(s);
    ParsedGuidPrints(t);
    PrintedGuidParses(Parse(s).value);
    PrintedGuidParses(Parse(t).value);
  }

  function Upper(s: string): (t: string)
    ensures |t| == |s|
  {
    seq(|s|, i requires 0 <= i < |s| => if 'a' <= s[i] <= 'z' then (s[i] as int - 32) as char else s[i])
  }

  /** The text a container id is added with, in upper case, parses back to its GUID. */
  lemma UpperTextParses(g: Guid)
    requires g.Valid()
    ensures Parse(Upper(Print(g))) == Ok(g)
  {
    hide Print;
    hide Parse;
    var s := Print(g);
    PrintedGuidParses(g);
    AcceptedTexts(s);
    UpperIsGuidText(s);
    AcceptedTexts(Upper(s));
    assert Lower(Upper(s)) == Lower(s);
    CaseDoesNotMatter(Upper(s), s);
  }

  lemma UpperIsGuidText(s: string)
    requires IsGuidText(s)
    ensures IsGuidText(Upper(s))
  {
    forall i | 0 <= i < |s|
      ensures HexValue(s[i]).Some? ==> HexValue(Upper(s)[i]).Some?
      ensures s[i] == '-' ==> Upper(s)[i] == '-'
    {
    }
    hide HexValue;
  }
}
