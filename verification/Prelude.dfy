/** Shared vocabulary: options and results, machine integers, little-endian byte strings. */
module Prelude {

  datatype Option<+T> = None | Some(value: T) {
    function GetOr(default: T): T {
      if Some? then value else default
    }
  }

  datatype Result<+T, +E> = Ok(value: T) | Err(error: E)

  type Byte = x: int | 0 <= x < 256

  /** A UTF-16 code unit, the `wchar_t` of Windows. */
  type Wide = x: int | 0 <= x < 0x1_0000

  const U16: nat := 0x1_0000
  const U32: nat := 0x1_0000_0000
  const U64: nat := 0x1_0000_0000_0000_0000

  /** The `width` low-order bytes of n, least significant first. */
  function ToLittleEndian(n: nat, width: nat): (bytes: seq<Byte>)
    ensures |bytes| == width
  {
    if width == 0 then [] else [n % 256] + ToLittleEndian(n / 256, width - 1)
  }

  function FromLittleEndian(bytes: seq<Byte>): nat {
    if bytes == [] then 0 else bytes[0] + 256 * FromLittleEndian(bytes[1..])
  }

  function Pow256(width: nat): (p: nat)
    ensures p > 0
  {
    if width == 0 then 1 else 256 * Pow256(width - 1)
  }

  /** Reading back a little-endian number returns it modulo what `width` bytes can hold. */
  lemma {:induction false} LittleEndianReadsBack(n: nat, width: nat)
    ensures FromLittleEndian(ToLittleEndian(n, width)) == n % Pow256(width)
  {
    if width == 0 {
    } else {
      LittleEndianReadsBack(n / 256, width - 1);
      var p := Pow256(width - 1);
      assert ToLittleEndian(n, width)[1..] == ToLittleEndian(n / 256, width - 1);
      ModSplit(n, p);
    }
  }

  lemma ModSplit(n: nat, p: nat)
    requires p > 0
    ensures n % 256 + 256 * ((n / 256) % p) == n % (256 * p)
  {
    var q := n / 256;
    var low := n % 256 + 256 * (q % p);
    assert q == (q / p) * p + q % p;
    assert n == 256 * q + n % 256;
    assert n == (q / p) * (256 * p) + low by {
      assert 256 * ((q / p) * p) == (q / p) * (256 * p);
    }
    assert 0 <= low < 256 * p;
    ModUnique(n, 256 * p, q / p, low);
  }

  lemma {:induction false} AtLeastOneMultiple(d: int, m: int)
    requires m > 0
    ensures d > 0 ==> d * m >= m
    ensures d < 0 ==> d * m <= -m
    decreases if d > 0 then d else -d
  {
    if d > 1 {
      AtLeastOneMultiple(d - 1, m);
      assert d * m == (d - 1) * m + m;
    } else if d < -1 {
      AtLeastOneMultiple(d + 1, m);
      assert d * m == (d + 1) * m - m;
    }
  }

  /** Quotient and remainder are the only numbers that fit. */
  lemma ModUnique(n: nat, m: nat, q: nat, low: nat)
    requires 0 <= low < m
    requires n == q * m + low
    ensures n % m == low && n / m == q
  {
    var d := q - n / m;
    assert n == (n / m) * m + n % m;
    assert d * m == n % m - low;
    AtLeastOneMultiple(d, m);
  }

  /** Byte k of a little-endian number is its k-th digit to the base 256. */
  lemma {:induction false} LittleEndianDigit(n: nat, width: nat, k: nat)
    requires k < width
    ensures ToLittleEndian(n, width)[k] == n / Pow256(k) % 256
  {
    if k > 0 {
      LittleEndianDigit(n / 256, width - 1, k - 1);
      DivideTwice(n, Pow256(k - 1));
    }
  }

  lemma DivideTwice(n: nat, p: nat)
    requires p > 0
    ensures n / 256 / p == n / (256 * p)
  {
    var q := n / 256;
    ModSplit(n, p);
    assert q == (q / p) * p + q % p;
    assert n == 256 * q + n % 256;
    assert n == (q / p) * (256 * p) + n % (256 * p) by {
      assert 256 * ((q / p) * p) == (q / p) * (256 * p);
    }
    ModUnique(n, 256 * p, q / p, n % (256 * p));
  }

  lemma EightBytes()
    ensures Pow256(8) == U64
  {
    assert Pow256(2) == U16;
    assert Pow256(4) == U32;
    assert Pow256(6) == 0x1_0000_0000_0000;
  }

  lemma U64LittleEndian(n: nat)
    requires n < U64
    ensures FromLittleEndian(ToLittleEndian(n, 8)) == n
  {
    hide Pow256;
    hide ToLittleEndian;
    hide FromLittleEndian;
    EightBytes();
    LittleEndianReadsBack(n, 8);
    ModUnique(n, U64, 0, n);
  }

  /** Concatenation of a list of byte strings (or any strings). */
  function Flatten<T>(parts: seq<seq<T>>): seq<T> {
    if parts == [] then [] else Flatten(parts[..|parts| - 1]) + parts[|parts| - 1]
  }

  lemma {:induction false} FlattenAppend<T>(a: seq<seq<T>>, b: seq<seq<T>>)
    ensures Flatten(a + b) == Flatten(a) + Flatten(b)
    decreases |b|
  {
    if b == [] {
      assert a + b == a;
    } else {
      var front := b[..|b| - 1];
      FlattenAppend(a, front);
      assert (a + b)[..|a + b| - 1] == a + front;
    }
  }

  /** Part i of a concatenation sits right behind everything before it. */
  lemma FlattenPart<T>(parts: seq<seq<T>>, i: nat)
    requires i < |parts|
    ensures var start := |Flatten(parts[..i])|;
            && Flatten(parts[..i + 1]) == Flatten(parts[..i]) + parts[i]
            && start + |parts[i]| <= |Flatten(parts)|
            && Flatten(parts) == Flatten(parts[..i]) + parts[i] + Flatten(parts[i + 1..])
            && Flatten(parts)[start..start + |parts[i]|] == parts[i]
  {
    assert parts[..i + 1][..i] == parts[..i];
    assert parts == parts[..i + 1] + parts[i + 1..];
    FlattenAppend(parts[..i + 1], parts[i + 1..]);
  }
}
