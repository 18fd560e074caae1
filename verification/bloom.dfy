/** The Bloom filter: for every key k probes of a bit array, by double hashing. */
module Bloom {
  import opened Format
  import opened Coding
  import opened Bits

  type Hash = Bytes -> word

  /** The probe positions of a key start at its hash and move on by the hash rotated. */
  function Rotated(h: word): word {
    h / 0x2_0000 + h % 0x2_0000 * 0x8000
  }

  function Probe(h: word, delta: word, j: nat): word {
    if j == 0 then h else (Probe(h, delta, j - 1) + delta) % TWO_32
  }

  function BitPosition(hash: Hash, key: Bytes, j: nat, bits: nat): (p: nat)
    requires bits > 0
    ensures p < bits
  {
    Probe(hash(key), Rotated(hash(key)), j) % bits
  }

  predicate BitAt(bytes: Bytes, p: nat)
    requires p < 8 * |bytes|
  {
    TestBit(bytes[p / 8], p % 8)
  }

  /** Position p is one of the first k probes of one of the keys. */
  ghost predicate Probed(hash: Hash, keys: seq<Bytes>, k: nat, bits: nat, p: nat)
    requires bits > 0
  {
    exists key, j :: key in keys && 0 <= j < k && BitPosition(hash, key, j, bits) == p
  }

  /** The bit array holds exactly the probes of the keys. */
  ghost predicate HoldsProbes(bytes: Bytes, hash: Hash, keys: seq<Bytes>, k: nat)
    requires bytes != []
  {
    forall p :: 0 <= p < 8 * |bytes| ==> (BitAt(bytes, p) <==> Probed(hash, keys, k, 8 * |bytes|, p))
  }

  function FilterBytes(n: nat, bitsPerKey: nat): (r: nat)
    ensures r >= 8
  {
    ((if n * bitsPerKey < 64 then 64 else n * bitsPerKey) + 7) / 8
  }

  /** How many probes: about ln 2 for every bit of a key, from 1 to 30. */
  function Probes(bitsPerKey: nat): (k: nat)
    ensures 1 <= k <= 30
  {
    var k := (bitsPerKey as real * 0.69).Floor;
    if k < 1 then 1 else if k > 30 then 30 else k
  }

  /** Probe j of the key is set. */
  predicate Hit(hash: Hash, key: Bytes, bytes: Bytes, j: nat)
    requires bytes != []
  {
    BitAt(bytes, BitPosition(hash, key, j, 8 * |bytes|))
  }

  predicate AllHit(hash: Hash, key: Bytes, bytes: Bytes, k: nat)
    requires bytes != []
  {
    forall j :: 0 <= j < k ==> Hit(hash, key, bytes, j)
  }

  /** Whether the key's probes are all set; the filter says itself how many there are. */
  predicate KeyMayMatch(hash: Hash, key: Bytes, filter: Bytes) {
    if |filter| < 2 then false
    else
      var k := filter[|filter| - 1];
      k > 30 || AllHit(hash, key, filter[..|filter| - 1], k as nat)
  }

  method CheckKey(hash: Hash, key: Bytes, filter: Bytes) returns (b: bool)
    ensures b == KeyMayMatch(hash, key, filter)
  {
    var len := |filter|;
    if len < 2 { return false; }
    var bits := (len - 1) * 8;
    var k := filter[len - 1];
    if k > 30 { return true; }
    var h := hash(key);
    var delta := Rotated(h);
    var bytes := filter[..len - 1];
    for j := 0 to k as int
      invariant h == Probe(hash(key), delta, j)
      invariant AllHit(hash, key, bytes, j)
    {
      var p := h % bits;
      if !TestBit(bytes[p / 8], p % 8) {
        assert !Hit(hash, key, bytes, j);
        return false;
      }
      h := (h + delta) % TWO_32;
    }
    b := true;
  }

  /** Sets one bit of the array. */
  method SetAt(bytes: Bytes, p: nat) returns (r: Bytes)
    requires p < 8 * |bytes|
    ensures |r| == |bytes| && forall q :: 0 <= q < 8 * |r| ==> (BitAt(r, q) <==> q == p || BitAt(bytes, q))
  {
    assert Pow2(4) == 16 && Pow2(8) == 16 * Pow2(4);
    SetBitFits(bytes[p / 8], p % 8, 8);
    r := bytes[p / 8 := SetBit(bytes[p / 8], p % 8)];
    forall q | 0 <= q < 8 * |r|
      ensures BitAt(r, q) <==> q == p || BitAt(bytes, q)
    {
      SetBitTests(bytes[p / 8], p % 8, q % 8);
    }
  }

  /** A key's k probes join the array. */
  method AddKey(bytes: Bytes, hash: Hash, key: Bytes, k: nat, ghost keys: seq<Bytes>) returns (r: Bytes)
    requires bytes != [] && HoldsProbes(bytes, hash, keys, k)
    ensures |r| == |bytes| && HoldsProbes(r, hash, keys + [key], k)
  {
    var bits := 8 * |bytes|;
    var h := hash(key);
    var delta := Rotated(h);
    r := bytes;
    for j := 0 to k
      invariant |r| == |bytes| && h == Probe(hash(key), delta, j)
      invariant forall p :: 0 <= p < bits ==>
                  (BitAt(r, p) <==> BitAt(bytes, p) || exists i :: 0 <= i < j && BitPosition(hash, key, i, bits) == p)
    {
      r := SetAt(r, h % bits);
      assert h % bits == BitPosition(hash, key, j, bits);
      h := (h + delta) % TWO_32;
    }
    forall p | 0 <= p < bits
      ensures BitAt(r, p) <==> Probed(hash, keys + [key], k, bits, p)
    {
      ProbedSnoc(hash, keys, key, k, bits, p);
    }
  }

  lemma ProbedSnoc(hash: Hash, keys: seq<Bytes>, key: Bytes, k: nat, bits: nat, p: nat)
    requires bits > 0
    ensures Probed(hash, keys + [key], k, bits, p) <==>
              Probed(hash, keys, k, bits, p) || exists j :: 0 <= j < k && BitPosition(hash, key, j, bits) == p
  {
    if Probed(hash, keys, k, bits, p) {
      var x, j :| x in keys && 0 <= j < k && BitPosition(hash, x, j, bits) == p;
      assert x in keys + [key];
    }
    if j :| 0 <= j < k && BitPosition(hash, key, j, bits) == p {
      assert key in keys + [key];
    }
  }

  lemma NoProbesInZeros(zeros: Bytes, hash: Hash, k: nat)
    requires zeros != [] && forall i :: 0 <= i < |zeros| ==> zeros[i] == 0
    ensures HoldsProbes(zeros, hash, [], k)
  {
    forall p | 0 <= p < 8 * |zeros|
      ensures !BitAt(zeros, p) && !Probed(hash, [], k, 8 * |zeros|, p)
    {
      ZeroBits(p % 8);
    }
  }

  /** A filter made for these keys: a bit array that holds exactly their probes, and how many. */
  ghost predicate IsFilter(hash: Hash, keys: seq<Bytes>, bitsPerKey: nat, filter: Bytes) {
    && |filter| == FilterBytes(|keys|, bitsPerKey) + 1 && filter[|filter| - 1] == Probes(bitsPerKey)
    && HoldsProbes(filter[..|filter| - 1], hash, keys, Probes(bitsPerKey))
  }

  /** Appends a filter for the keys to dst. */
  method CreateFilter(hash: Hash, bitsPerKey: nat, keys: seq<Bytes>, dst: Bytes) returns (r: Bytes)
    ensures |r| >= |dst| && r[..|dst|] == dst && IsFilter(hash, keys, bitsPerKey, r[|dst|..])
  {
    var k := Probes(bitsPerKey);
    var bits := if |keys| * bitsPerKey < 64 then 64 else |keys| * bitsPerKey;
    var bytes := (bits + 7) / 8;
    var filter: Bytes := seq(bytes, i => 0);
    NoProbesInZeros(filter, hash, k);
    for i := 0 to |keys|
      invariant |filter| == bytes && HoldsProbes(filter, hash, keys[..i], k)
    {
      filter := AddKey(filter, hash, keys[i], k, keys[..i]);
      assert keys[..i + 1] == keys[..i] + [keys[i]];
    }
    assert keys[..|keys|] == keys;
    r := dst + (filter + [k]);
    assert r[|dst|..] == filter + [k] && (filter + [k])[..bytes] == filter;
  }

  /** Every probe of the key is a probe of one of the filter's keys. */
  ghost predicate Covered(hash: Hash, keys: seq<Bytes>, k: nat, bits: nat, key: Bytes)
    requires bits > 0
  {
    forall j :: 0 <= j < k ==> Probed(hash, keys, k, bits, BitPosition(hash, key, j, bits))
  }

  lemma HitsAreCovered(hash: Hash, keys: seq<Bytes>, k: nat, bytes: Bytes, key: Bytes)
    requires bytes != [] && HoldsProbes(bytes, hash, keys, k)
    ensures AllHit(hash, key, bytes, k) <==> Covered(hash, keys, k, 8 * |bytes|, key)
    ensures key in keys ==> AllHit(hash, key, bytes, k)
  {
    forall j | 0 <= j < k
      ensures Hit(hash, key, bytes, j) <==> Probed(hash, keys, k, 8 * |bytes|, BitPosition(hash, key, j, 8 * |bytes|))
      ensures key in keys ==> Hit(hash, key, bytes, j)
    {
      var p := BitPosition(hash, key, j, 8 * |bytes|);
      assert BitAt(bytes, p) <==> Probed(hash, keys, k, 8 * |bytes|, p);
    }
  }

  /** A filter matches a key exactly when all the key's probes are among those of its keys; so it
      matches each of its own keys. */
  lemma MatchesExactly(hash: Hash, keys: seq<Bytes>, bitsPerKey: nat, filter: Bytes, key: Bytes)
    requires IsFilter(hash, keys, bitsPerKey, filter)
    ensures KeyMayMatch(hash, key, filter) <==> Covered(hash, keys, Probes(bitsPerKey), 8 * (|filter| - 1), key)
    ensures key in keys ==> KeyMayMatch(hash, key, filter)
  {
    HitsAreCovered(hash, keys, Probes(bitsPerKey), filter[..|filter| - 1], key);
  }
}
