/** Fixed-width and base-128 integers, length-prefixed strings, and the masked checksum. */
module Coding {
  import opened Format

  const TWO_32 := 0x1_0000_0000
  const TWO_64 := 0x1_0000_0000_0000_0000

  lemma Associate(a: Bytes, b: Bytes, c: Bytes)
    ensures a + (b + c) == a + b + c
  {
  }

  /** The parts of three byte strings laid end to end. */
  lemma Parts(a: Bytes, b: Bytes, c: Bytes)
    ensures var s := a + b + c;
            s[..|a|] == a && s[|a|..|a| + |b|] == b && s[|a| + |b|..] == c
  {
  }

  /** Byte strings laid end to end. */
  function Flatten(parts: seq<Bytes>): Bytes {
    if parts == [] then [] else parts[0] + Flatten(parts[1..])
  }

  lemma {:induction false} FlattenAppend(a: seq<Bytes>, b: seq<Bytes>)
    ensures Flatten(a + b) == Flatten(a) + Flatten(b)
  {
    if a == [] {
      assert a + b == b;
    } else {
      FlattenAppend(a[1..], b);
      assert (a + b)[0] == a[0] && (a + b)[1..] == a[1..] + b;
      Associate(a[0], Flatten(a[1..]), Flatten(b));
    }
  }

  lemma {:induction false} FlattenSnoc(a: seq<Bytes>, b: Bytes)
    ensures Flatten(a + [b]) == Flatten(a) + b
  {
    FlattenAppend(a, [b]);
    assert Flatten([b]) == b + Flatten([]) == b;
  }

  type word = x: int | 0 <= x < TWO_32

  /** v in n little-endian bytes. */
  function Fixed(v: nat, n: nat): (r: Bytes)
    ensures |r| == n
  {
    if n == 0 then [] else [v % 256] + Fixed(v / 256, n - 1)
  }

  function Unfixed(b: Bytes): nat {
    if b == [] then 0 else b[0] + 256 * Unfixed(b[1..])
  }

  function Pow256(n: nat): nat {
    if n == 0 then 1 else 256 * Pow256(n - 1)
  }

  lemma {:induction false} FixedRoundTrip(v: nat, n: nat)
    requires v < Pow256(n)
    ensures Unfixed(Fixed(v, n)) == v
  {
    if n > 0 {
      FixedRoundTrip(v / 256, n - 1);
      assert Fixed(v, n)[1..] == Fixed(v / 256, n - 1);
    }
  }

  function Fixed32(v: nat): Bytes { Fixed(v, 4) }
  function Fixed64(v: nat): Bytes { Fixed(v, 8) }

  lemma Fixed32RoundTrip(v: nat)
    requires v < TWO_32
    ensures Unfixed(Fixed32(v)) == v
  {
    assert Pow256(2) == 0x1_0000 && Pow256(4) == 256 * 256 * Pow256(2);
    FixedRoundTrip(v, 4);
  }

  lemma Fixed64RoundTrip(v: nat)
    requires v < TWO_64
    ensures Unfixed(Fixed64(v)) == v
  {
    assert Pow256(2) == 0x1_0000 && Pow256(4) == 256 * 256 * Pow256(2);
    assert Pow256(6) == 256 * 256 * Pow256(4) && Pow256(8) == 256 * 256 * Pow256(6);
    FixedRoundTrip(v, 8);
  }

  lemma {:induction false} ReadsFixed32(b: Bytes, v: nat)
    requires v < TWO_32 && b == Fixed32(v)
    ensures Unfixed(b) % TWO_32 == v
  {
    Fixed32RoundTrip(v);
  }

  lemma {:induction false} ReadsFixed64(b: Bytes, v: nat)
    requires v < TWO_64 && b == Fixed64(v)
    ensures Unfixed(b) % TWO_64 == v
  {
    Fixed64RoundTrip(v);
  }

  /** v in groups of seven bits, low group first, the top bit set on all bytes but the last. */
  function Varint(v: nat): (r: Bytes)
    ensures r != []
  {
    if v < 128 then [v] else [v % 128 + 128] + Varint(v / 128)
  }

  /** Reads a base-128 integer of at most `groups` bytes: its value and how many bytes it took. */
  function GetVarint(b: Bytes, groups: nat): (r: Option<(nat, nat)>)
    ensures r.Some? ==> 0 < r.value.1 <= |b| && r.value.1 <= groups
  {
    if groups == 0 || b == [] then None
    else if b[0] < 128 then Some((b[0] as nat, 1))
    else
      match GetVarint(b[1..], groups - 1)
      case None => None
      case Some((v, n)) => Some((b[0] - 128 + 128 * v, n + 1))
  }

  function Pow128(n: nat): nat {
    if n == 0 then 1 else 128 * Pow128(n - 1)
  }

  lemma {:induction false} VarintRoundTrip(v: nat, groups: nat, rest: Bytes)
    requires 0 < groups && v < Pow128(groups)
    ensures |Varint(v)| <= groups
    ensures GetVarint(Varint(v) + rest, groups) == Some((v, |Varint(v)|))
  {
    if v < 128 {
      assert (Varint(v) + rest)[0] == v;
    } else {
      assert groups > 1;
      VarintRoundTrip(v / 128, groups - 1, rest);
      assert Varint(v) + rest == [v % 128 + 128] + (Varint(v / 128) + rest);
    }
  }

  /** Bits above the 32nd are shifted out of a 32-bit result. */
  function GetVarint32(b: Bytes): (r: Option<(nat, nat)>)
    ensures r.Some? ==> 0 < r.value.1 <= |b|
  {
    match GetVarint(b, 5)
    case None => None
    case Some((v, n)) => Some((v % TWO_32, n))
  }

  function GetVarint64(b: Bytes): (r: Option<(nat, nat)>)
    ensures r.Some? ==> 0 < r.value.1 <= |b|
  {
    match GetVarint(b, 10)
    case None => None
    case Some((v, n)) => Some((v % TWO_64, n))
  }

  lemma {:induction false} Varint32RoundTrip(v: nat, rest: Bytes)
    requires v < TWO_32
    ensures GetVarint32(Varint(v) + rest) == Some((v, |Varint(v)|))
  {
    assert Pow128(2) == 0x4000 && Pow128(4) == 128 * 128 * Pow128(2) && Pow128(5) == 128 * Pow128(4);
    VarintRoundTrip(v, 5, rest);
  }

  lemma {:induction false} Varint64RoundTrip(v: nat, rest: Bytes)
    requires v < TWO_64
    ensures GetVarint64(Varint(v) + rest) == Some((v, |Varint(v)|))
  {
    assert Pow128(2) == 0x4000 && Pow128(4) == 128 * 128 * Pow128(2);
    assert Pow128(6) == 128 * 128 * Pow128(4) && Pow128(8) == 128 * 128 * Pow128(6) && Pow128(10) == 128 * 128 * Pow128(8);
    VarintRoundTrip(v, 10, rest);
  }

  function Prefixed(s: Bytes): Bytes {
    Varint(|s|) + s
  }

  /** A length-prefixed string off the front, and what follows it. */
  function GetPrefixed(b: Bytes): (r: Option<(Bytes, Bytes)>)
    ensures r.Some? ==> |r.value.1| < |b|
  {
    match GetVarint32(b)
    case None => None
    case Some((len, n)) =>
      if len <= |b| - n then Some((b[n..n + len], b[n + len..])) else None
  }

  lemma PrefixedRoundTrip(s: Bytes, rest: Bytes)
    requires |s| < TWO_32
    ensures GetPrefixed(Prefixed(s) + rest) == Some((s, rest))
  {
    Varint32RoundTrip(|s|, s + rest);
    assert Prefixed(s) + rest == Varint(|s|) + (s + rest);
  }

  const MASK_DELTA := 0xa282ead8

  /** Rotates right by 15 bits and adds a constant. */
  function Mask(crc: word): word {
    (crc / 0x8000 + (crc % 0x8000) * 0x2_0000 + MASK_DELTA) % TWO_32
  }

  function Unmask(masked: word): word {
    var rot := (masked + TWO_32 - MASK_DELTA) % TWO_32;
    rot / 0x2_0000 + (rot % 0x2_0000) * 0x8000
  }

  lemma DeltaRoundTrip(rot: word)
    ensures ((rot + MASK_DELTA) % TWO_32 + TWO_32 - MASK_DELTA) % TWO_32 == rot
  {
  }

  lemma RotationRoundTrip(hi: nat, lo: nat)
    requires hi < 0x2_0000 && lo < 0x8000
    ensures hi + lo * 0x2_0000 < TWO_32
    ensures (hi + lo * 0x2_0000) / 0x2_0000 == lo && (hi + lo * 0x2_0000) % 0x2_0000 == hi
  {
  }

  lemma MaskRoundTrip(crc: word)
    ensures Unmask(Mask(crc)) == crc
  {
    var hi, lo := crc / 0x8000, crc % 0x8000;
    var rot := hi + lo * 0x2_0000;
    RotationRoundTrip(hi, lo);
    DeltaRoundTrip(rot);
  }
}
