/** Blocks: key/value pairs with shared key prefixes, restart points, and the iterator over them. */
module Blocks {
  import opened Format
  import opened Coding

  datatype Pair = Pair(key: Bytes, value: Bytes)

  /** The user's comparator; only its being a strict total order matters. */
  type Comparator = (Bytes, Bytes) -> bool

  ghost predicate IsOrder(less: Comparator) {
    && (forall a :: !less(a, a))
    && (forall a, b, c :: less(a, b) && less(b, c) ==> less(a, c))
    && (forall a, b {:trigger less(a, b), less(b, a)} :: a == b || less(a, b) || less(b, a))
  }

  ghost predicate Ascending(less: Comparator, es: seq<Pair>) {
    forall i, j {:trigger less(es[i].key, es[j].key)} :: 0 <= i < j < |es| ==> less(es[i].key, es[j].key)
  }

  /** One entry: how much of the last key is shared, the rest of the key, and the value. */
  function EntryBytes(shared: nat, delta: Bytes, value: Bytes): (r: Bytes)
    ensures |r| >= 3 + |delta| + |value|
  {
    Varint(shared) + (Varint(|delta|) + (Varint(|value|) + (delta + value)))
  }

  /** The header of an entry and its length. */
  datatype Decoded = Decoded(header: nat, shared: nat, nonShared: nat, valueLength: nat)

  /** Three numbers off the front of b, one byte each when all are below 128. */
  function DecodeEntry(b: Bytes): (r: Option<Decoded>)
    ensures r.Some? ==> r.value.header + (r.value.nonShared + r.value.valueLength) % TWO_32 <= |b|
  {
    if |b| < 3 then None
    else if b[0] < 128 && b[1] < 128 && b[2] < 128 then Checked(b, Decoded(3, b[0] as nat, b[1] as nat, b[2] as nat))
    else DecodeSlowly(b)
  }

  function DecodeSlowly(b: Bytes): (r: Option<Decoded>)
    ensures r.Some? ==> r.value.header + (r.value.nonShared + r.value.valueLength) % TWO_32 <= |b|
  {
    match GetVarint32(b)
    case None => None
    case Some((shared, n0)) =>
      match GetVarint32(b[n0..])
      case None => None
      case Some((nonShared, n1)) =>
        match GetVarint32(b[n0 + n1..])
        case None => None
        case Some((valueLength, n2)) => Checked(b, Decoded(n0 + n1 + n2, shared, nonShared, valueLength))
  }

  /** The check that key and value fit, in 32-bit arithmetic. */
  function Checked(b: Bytes, d: Decoded): (r: Option<Decoded>)
    requires d.header <= |b|
    ensures r.Some? ==> r.value == d && d.header + (d.nonShared + d.valueLength) % TWO_32 <= |b|
  {
    if |b| - d.header < (d.nonShared + d.valueLength) % TWO_32 then None else Some(d)
  }

  /** The first byte of a varint tells whether it is the only one. */
  lemma {:induction false} VarintHead(v: nat, rest: Bytes)
    ensures (Varint(v) + rest)[0] < 128 <==> v < 128
    ensures v < 128 ==> Varint(v) == [v]
  {
  }

  lemma DropFront(a: Bytes, b: Bytes)
    ensures (a + b)[|a|..] == b
  {
  }

  /** What both paths of `DecodeEntry` read off three varints. */
  lemma {:induction false} DecodeThree(x: nat, y: nat, z: nat, rest: Bytes)
    requires x < TWO_32 && y < TWO_32 && z < TWO_32 && y + z < TWO_32 && y + z <= |rest|
    ensures DecodeEntry(Varint(x) + (Varint(y) + (Varint(z) + rest)))
         == Some(Decoded(|Varint(x)| + |Varint(y)| + |Varint(z)|, x, y, z))
  {
    var b2 := Varint(z) + rest;
    var b1 := Varint(y) + b2;
    var b := Varint(x) + b1;
    VarintHead(x, b1);
    VarintHead(y, b2);
    VarintHead(z, rest);
    DropFront(Varint(x), b1);
    DropFront(Varint(y), b2);
    if x < 128 && y < 128 && z < 128 {
      assert b == [x] + ([y] + ([z] + rest));
    } else {
      SlowPath(x, y, z, b, b1, b2, rest);
    }
  }

  lemma {:induction false} SlowPath(x: nat, y: nat, z: nat, b: Bytes, b1: Bytes, b2: Bytes, rest: Bytes)
    requires x < TWO_32 && y < TWO_32 && z < TWO_32 && y + z < TWO_32 && y + z <= |rest|
    requires b == Varint(x) + b1 && b1 == Varint(y) + b2 && b2 == Varint(z) + rest
    requires !(x < 128 && y < 128 && z < 128)
    ensures DecodeEntry(b) == Some(Decoded(|Varint(x)| + |Varint(y)| + |Varint(z)|, x, y, z))
  {
    ThreeVarints(x, y, z, b, b1, b2, rest);
    NotAllSmall(x, y, z, b, b1, b2, rest);
  }

  lemma {:induction false} ThreeVarints(x: nat, y: nat, z: nat, b: Bytes, b1: Bytes, b2: Bytes, rest: Bytes)
    requires x < TWO_32 && y < TWO_32 && z < TWO_32 && y + z < TWO_32 && y + z <= |rest|
    requires b == Varint(x) + b1 && b1 == Varint(y) + b2 && b2 == Varint(z) + rest
    ensures DecodeSlowly(b) == Some(Decoded(|Varint(x)| + |Varint(y)| + |Varint(z)|, x, y, z))
  {
    Varint32RoundTrip(x, b1);
    Varint32RoundTrip(y, b2);
    Varint32RoundTrip(z, rest);
    DropFront(Varint(x), b1);
    DropFront(Varint(y), b2);
    SlowlyIs(b, b1, b2, x, |Varint(x)|, y, |Varint(y)|, z, |Varint(z)|);
  }

  lemma SlowlyIs(b: Bytes, b1: Bytes, b2: Bytes, x: nat, n0: nat, y: nat, n1: nat, z: nat, n2: nat)
    requires GetVarint32(b) == Some((x, n0)) && b[n0..] == b1
    requires GetVarint32(b1) == Some((y, n1)) && b1[n1..] == b2
    requires GetVarint32(b2) == Some((z, n2)) && y + z < TWO_32 && n2 + y + z <= |b2|
    ensures DecodeSlowly(b) == Some(Decoded(n0 + n1 + n2, x, y, z))
  {
    assert b[n0 + n1..] == b[n0..][n1..];
  }

  /** The fast path is taken only for three one-byte numbers. */
  lemma {:induction false} NotAllSmall(x: nat, y: nat, z: nat, b: Bytes, b1: Bytes, b2: Bytes, rest: Bytes)
    requires b == Varint(x) + b1 && b1 == Varint(y) + b2 && b2 == Varint(z) + rest
    requires !(x < 128 && y < 128 && z < 128)
    ensures |b| >= 3 && !(b[0] < 128 && b[1] < 128 && b[2] < 128)
  {
    VarintHead(x, b1);
    VarintHead(y, b2);
    VarintHead(z, rest);
    if x < 128 {
      assert b[1] == b1[0];
      if y < 128 {
        assert b[2] == b1[1] == b2[0];
      }
    }
  }

  /** How the pairs of a block are laid out: where each entry starts (with the end of the last
      one behind them), how much of the key before it each shares, and which entries are the
      restart points. */
  datatype Layout = Layout(es: seq<Pair>, offs: seq<nat>, shared: seq<nat>, firsts: seq<nat>)

  /** Entry i shares that much with the one before it. */
  ghost predicate Shares(l: Layout, i: nat)
    requires i < |l.es| == |l.shared|
  {
    l.shared[i] <= |l.es[i].key| &&
    (l.shared[i] > 0 ==> i > 0 && l.shared[i] <= |l.es[i - 1].key| && l.es[i - 1].key[..l.shared[i]] == l.es[i].key[..l.shared[i]])
  }

  function EntryOf(l: Layout, i: nat): Bytes
    requires i < |l.es| == |l.shared| && l.shared[i] <= |l.es[i].key|
  {
    EntryBytes(l.shared[i], l.es[i].key[l.shared[i]..], l.es[i].value)
  }

  /** Entry i lies in the buffer where the layout says. */
  ghost predicate EntryLies(buffer: Bytes, l: Layout, i: nat)
    requires i < |l.es| == |l.shared| && |l.offs| == |l.es| + 1
  {
    && Shares(l, i) && l.offs[i] + |EntryOf(l, i)| == l.offs[i + 1] <= |buffer|
    && buffer[l.offs[i]..l.offs[i + 1]] == EntryOf(l, i)
  }

  /** The restart points: the first entry, and ever later ones, none of which shares a prefix. */
  ghost predicate RestartsOk(l: Layout)
    requires |l.es| == |l.shared|
  {
    && l.firsts != [] && l.firsts[0] == 0
    && (forall j, k {:trigger l.firsts[j], l.firsts[k]} :: 0 <= j < k < |l.firsts| ==> l.firsts[j] < l.firsts[k])
    && (forall j :: 0 <= j < |l.firsts| ==> l.firsts[j] < |l.es| || (|l.firsts| == 1 && l.es == []))
    && (forall j {:trigger l.shared[l.firsts[j]]} :: 0 <= j < |l.firsts| && l.firsts[j] < |l.es| ==> l.shared[l.firsts[j]] == 0)
  }

  /** The buffer holds the pairs as laid out. */
  ghost predicate LaidOut(buffer: Bytes, l: Layout) {
    && |l.es| == |l.shared| && |l.offs| == |l.es| + 1 && l.offs[0] == 0 && l.offs[|l.es|] == |buffer|
    && (forall i :: 0 <= i < |l.es| ==> EntryLies(buffer, l, i))
    && RestartsOk(l)
  }

  /** The restart points are `interval` entries apart, with `counter` entries since the last. */
  ghost predicate RestartsEvery(l: Layout, restarts: seq<nat>, interval: nat, counter: nat)
    requires |l.es| == |l.shared| && |l.offs| == |l.es| + 1 && RestartsOk(l)
  {
    && |restarts| == |l.firsts| && counter <= interval
    && (forall j {:trigger restarts[j]} :: 0 <= j < |restarts| ==> restarts[j] == l.offs[l.firsts[j]])
    && counter == |l.es| - l.firsts[|l.firsts| - 1]
    && (forall j, k :: 0 <= j < k < |l.firsts| && k == j + 1 ==> l.firsts[k] - l.firsts[j] == interval)
  }

  function LastKey(es: seq<Pair>): Bytes {
    if es == [] then [] else es[|es| - 1].key
  }

  /** How far two keys agree. */
  ghost predicate Agree(a: Bytes, b: Bytes, n: nat) {
    n <= |a| && n <= |b| && a[..n] == b[..n]
  }

  method AppendFixed32s(buffer: Bytes, words: seq<nat>) returns (r: Bytes)
    ensures r == buffer + Flatten(RestartArray(words))
  {
    r := buffer;
    for i := 0 to |words|
      invariant r == buffer + Flatten(RestartArray(words[..i]))
    {
      FlattenSnoc(RestartArray(words[..i]), Fixed32(words[i]));
      assert RestartArray(words[..i + 1]) == RestartArray(words[..i]) + [Fixed32(words[i])];
      Associate(buffer, Flatten(RestartArray(words[..i])), Fixed32(words[i]));
      r := r + Fixed32(words[i]);
    }
    assert words[..|words|] == words;
  }

  /** What a builder holds that has laid out the pairs so far. */
  ghost predicate BuildingOk(less: Comparator, interval: nat, buffer: Bytes, restarts: seq<nat>, counter: nat,
                             lastKey: Bytes, l: Layout)
  {
    && IsOrder(less) && interval >= 1 && LaidOut(buffer, l) && Ascending(less, l.es) && |buffer| < TWO_32
    && RestartsEvery(l, restarts, interval, counter) && lastKey == LastKey(l.es)
  }

  class BlockBuilder {
    const less: Comparator
    const interval: nat
    var buffer: Bytes
    var restarts: seq<nat>       // offsets of the restart points
    var counter: nat             // entries since the last restart point
    var lastKey: Bytes
    ghost var layout: Layout

    ghost predicate Valid()
      reads this
    {
      BuildingOk(less, interval, buffer, restarts, counter, lastKey, layout)
    }

    constructor (less: Comparator, interval: nat)
      requires IsOrder(less) && interval >= 1
      ensures Valid() && layout.es == [] && this.less == less && this.interval == interval
    {
      this.less, this.interval := less, interval;
      buffer, restarts, counter, lastKey := [], [0], 0, [];
      layout := Layout([], [0], [], [0]);
    }

    method Reset()
      requires Valid()
      modifies this
      ensures Valid() && layout.es == []
    {
      buffer, restarts, counter, lastKey := [], [0], 0, [];
      layout := Layout([], [0], [], [0]);
    }

    /** How many leading bytes the key has in common with the last one. */
    method SharedWithLast(key: Bytes) returns (shared: nat)
      ensures Agree(lastKey, key, shared)
      ensures shared < |lastKey| && shared < |key| ==> lastKey[shared] != key[shared]
    {
      var minLength := if |lastKey| < |key| then |lastKey| else |key|;
      shared := 0;
      while shared < minLength && lastKey[shared] == key[shared]
        invariant shared <= minLength && Agree(lastKey, key, shared)
      {
        shared := shared + 1;
      }
    }

    /** Writes one entry at the end of the buffer. */
    method AppendEntry(shared: nat, delta: Bytes, value: Bytes)
      requires |delta| < TWO_32 && |value| < TWO_32 && shared < TWO_32
      modifies this`buffer
      ensures buffer == old(buffer) + EntryBytes(shared, delta, value)
      ensures |buffer| <= |old(buffer)| + 15 + |delta| + |value|
    {
      ghost var before := buffer;
      var header := Varint(shared) + Varint(|delta|) + Varint(|value|);
      buffer := buffer + header;
      buffer := buffer + delta;
      buffer := buffer + value;
      EntryPieces(before, shared, delta, value);
      VarintShort(shared);
      VarintShort(|delta|);
      VarintShort(|value|);
    }

    method Add(key: Bytes, value: Bytes)
      requires Valid() && |buffer| + |key| + |value| + 15 < TWO_32
      requires layout.es != [] ==> less(lastKey, key)
      modifies this
      ensures Valid() && layout.es == old(layout.es) + [Pair(key, value)]
    {
      var shared := 0;
      ghost var before, l := buffer, layout;
      if counter < interval {
        shared := SharedWithLast(key);
      } else {
        restarts := restarts + [|buffer|];
        counter := 0;
      }
      AppendEntry(shared, key[shared..], value);
      KeyAgain(lastKey, key, shared);
      lastKey := lastKey[..shared] + key[shared..];
      counter := counter + 1;
      layout := WithEntry(l, old(counter) >= interval, Pair(key, value), shared, |buffer|);
      AddedBuildsOn(less, interval, before, old(restarts), old(counter), old(lastKey), l, shared, key, value, buffer,
                    restarts, counter, layout);
    }

    /** The bytes of the block: the entries, the restart points, and their number. */
    method Finish() returns (contents: Bytes)
      requires Valid()
      ensures Opened(contents) == Some((|buffer|, |restarts|)) && Holds(contents, |buffer|, |restarts|, layout)
      ensures |contents| <= 5 * |buffer| + 8
    {
      contents := AppendFixed32s(buffer, restarts);
      contents := contents + Fixed32(|restarts|);
      FewRestarts(buffer, layout);
      FinishedHolds(buffer, restarts, layout);
      RestartArrayLength(restarts);
    }

    function CurrentSizeEstimate(): nat
      reads this
    {
      |buffer| + 4 * |restarts| + 4
    }
  }

  function RestartArray(restarts: seq<nat>): (r: seq<Bytes>)
    ensures |r| == |restarts| && forall i :: 0 <= i < |r| ==> r[i] == Fixed32(restarts[i])
  {
    seq(|restarts|, i requires 0 <= i < |restarts| => Fixed32(restarts[i]))
  }

  lemma {:induction false} EntryPieces(buffer: Bytes, shared: nat, delta: Bytes, value: Bytes)
    ensures buffer + (Varint(shared) + Varint(|delta|) + Varint(|value|)) + delta + value
         == buffer + EntryBytes(shared, delta, value)
  {
    var a, b, c := Varint(shared), Varint(|delta|), Varint(|value|);
    Associate(buffer, a + b + c, delta);
    Associate(buffer, a + b + c + delta, value);
    Associate(a + b + c, delta, value);
    Associate(a + b, c, delta + value);
    Associate(a, b, c + (delta + value));
  }

  lemma {:induction false} VarintBound(v: nat, groups: nat)
    requires 0 < groups && v < Pow128(groups)
    ensures |Varint(v)| <= groups
  {
    VarintRoundTrip(v, groups, []);
  }

  lemma {:induction false} VarintShort(v: nat)
    requires v < TWO_32
    ensures |Varint(v)| <= 5
  {
    assert Pow128(2) == 0x4000 && Pow128(4) == 128 * 128 * Pow128(2) && Pow128(5) == 128 * Pow128(4);
    VarintBound(v, 5);
  }

  lemma AddedAscending(less: Comparator, es: seq<Pair>, e: Pair)
    requires IsOrder(less) && Ascending(less, es) && (es != [] ==> less(es[|es| - 1].key, e.key))
    ensures Ascending(less, es + [e])
  {
    forall i | 0 <= i < |es|
      ensures less(es[i].key, e.key)
    {
    }
  }

  lemma EntriesStay(before: Bytes, l: Layout, buffer: Bytes, l': Layout, i: nat)
    requires LaidOut(before, l) && before <= buffer && i < |l.es|
    requires |l'.es| == |l'.shared| == |l.es| + 1 && |l'.offs| == |l'.es| + 1
    requires l.es <= l'.es && l.offs <= l'.offs && l.shared <= l'.shared
    ensures EntryLies(buffer, l', i)
  {
    assert EntryLies(before, l, i);
    assert buffer[l.offs[i]..l.offs[i + 1]] == before[l.offs[i]..l.offs[i + 1]];
  }

  lemma AddedLaidOut(before: Bytes, l: Layout, buffer: Bytes, l': Layout, shared: nat, key: Bytes, value: Bytes)
    requires LaidOut(before, l) && shared <= |key|
    requires buffer == before + EntryBytes(shared, key[shared..], value)
    requires shared > 0 ==> l.es != [] && Agree(l.es[|l.es| - 1].key, key, shared)
    requires l' == Layout(l.es + [Pair(key, value)], l.offs + [|buffer|], l.shared + [shared], l'.firsts)
    requires l'.firsts == l.firsts || (l'.firsts == l.firsts + [|l.es|] && shared == 0 && l.es != [])
    ensures LaidOut(buffer, l')
  {
    forall i | 0 <= i < |l.es|
      ensures EntryLies(buffer, l', i)
    {
      EntriesStay(before, l, buffer, l', i);
    }
    assert buffer[|before|..|buffer|] == EntryOf(l', |l.es|);
  }

  /** One entry more since the last restart point, or a new restart point when there were enough. */
  lemma RestartsGoOn(l: Layout, restarts: seq<nat>, interval: nat, counter: nat, l': Layout, restarts': seq<nat>,
                     counter': nat)
    requires |l.es| == |l.shared| && |l.offs| == |l.es| + 1 && RestartsOk(l)
    requires RestartsEvery(l, restarts, interval, counter) && interval >= 1
    requires |l'.es| == |l'.shared| == |l.es| + 1 && |l'.offs| == |l'.es| + 1 && RestartsOk(l') && l.offs <= l'.offs
    requires if counter < interval then l'.firsts == l.firsts && restarts' == restarts && counter' == counter + 1
             else l'.firsts == l.firsts + [|l.es|] && restarts' == restarts + [l.offs[|l.es|]] && counter' == 1
    ensures RestartsEvery(l', restarts', interval, counter')
  {
  }

  /** The layout with one entry more, which ends at offset `end`. */
  function WithEntry(l: Layout, restart: bool, e: Pair, shared: nat, end: nat): Layout {
    Layout(l.es + [e], l.offs + [end], l.shared + [shared], if restart then l.firsts + [|l.es|] else l.firsts)
  }

  lemma KeyAgain(last: Bytes, key: Bytes, shared: nat)
    requires Agree(last, key, shared)
    ensures last[..shared] + key[shared..] == key
  {
    assert key[..shared] + key[shared..] == key;
  }

  lemma AddedBuildsOn(less: Comparator, interval: nat, before: Bytes, restarts: seq<nat>, counter: nat, last: Bytes,
                      l: Layout, shared: nat, key: Bytes, value: Bytes, buffer: Bytes, restarts': seq<nat>,
                      counter': nat, l': Layout)
    requires BuildingOk(less, interval, before, restarts, counter, last, l) && (l.es != [] ==> less(last, key))
    requires Agree(last, key, shared) && buffer == before + EntryBytes(shared, key[shared..], value) && |buffer| < TWO_32
    requires l' == WithEntry(l, counter >= interval, Pair(key, value), shared, |buffer|)
    requires if counter < interval then restarts' == restarts && counter' == counter + 1
             else restarts' == restarts + [|before|] && counter' == 1 && shared == 0
    ensures BuildingOk(less, interval, buffer, restarts', counter', key, l')
  {
    AddedLaidOut(before, l, buffer, l', shared, key, value);
    RestartsGoOn(l, restarts, interval, counter, l', restarts', counter');
    AddedAscending(less, l.es, Pair(key, value));
  }

  /** A finished block, as the iterator finds it: where the restart array starts, how many
      restart points there are, and how the entries before it are laid out. */
  ghost predicate Holds(data: Bytes, restarts: nat, numRestarts: nat, l: Layout) {
    && restarts < TWO_32 && restarts + 4 * numRestarts <= |data|
    && LaidOut(data[..restarts], l) && numRestarts == |l.firsts|
    && (forall j :: 0 <= j < numRestarts ==> RestartAt(data, restarts, j) == l.offs[l.firsts[j]])
  }

  /** Entry j of the restart array. */
  function RestartAt(data: Bytes, restarts: nat, j: nat): nat
    requires restarts + 4 * j + 4 <= |data|
  {
    Unfixed(data[restarts + 4 * j..restarts + 4 * j + 4]) % TWO_32
  }

  /** The number at the end of a block says how long its restart array is. */
  function NumRestarts(data: Bytes): nat
    requires |data| >= 4
  {
    Unfixed(data[|data| - 4..]) % TWO_32
  }

  /** Where the restart array starts, None for contents too short to be a block. */
  function Opened(data: Bytes): Option<(nat, nat)> {
    if |data| < 4 || NumRestarts(data) > (|data| - 4) / 4 then None
    else Some((|data| - 4 * (1 + NumRestarts(data)), NumRestarts(data)))
  }

  lemma {:induction false} RestartArrayAt(restarts: seq<nat>, j: nat)
    requires j < |restarts|
    ensures var a := Flatten(RestartArray(restarts));
            |a| == 4 * |restarts| && a[4 * j..4 * j + 4] == Fixed32(restarts[j])
    decreases |restarts|
  {
    var front, last := restarts[..|restarts| - 1], restarts[|restarts| - 1];
    assert RestartArray(restarts) == RestartArray(front) + [Fixed32(last)];
    FlattenSnoc(RestartArray(front), Fixed32(last));
    RestartArrayLength(front);
    var a := Flatten(RestartArray(front));
    if j < |front| {
      RestartArrayAt(front, j);
      assert (a + Fixed32(last))[4 * j..4 * j + 4] == a[4 * j..4 * j + 4];
    } else {
      assert (a + Fixed32(last))[4 * j..4 * j + 4] == Fixed32(last);
    }
  }

  lemma {:induction false} RestartArrayLength(restarts: seq<nat>)
    ensures |Flatten(RestartArray(restarts))| == 4 * |restarts|
    decreases |restarts|
  {
    if restarts != [] {
      var front, last := restarts[..|restarts| - 1], restarts[|restarts| - 1];
      assert RestartArray(restarts) == RestartArray(front) + [Fixed32(last)];
      FlattenSnoc(RestartArray(front), Fixed32(last));
      RestartArrayLength(front);
    }
  }

  lemma MiddleSlice(a: Bytes, b: Bytes, c: Bytes, lo: nat, hi: nat)
    requires lo <= hi <= |b|
    ensures (a + b + c)[|a| + lo..|a| + hi] == b[lo..hi]
    ensures (a + b + c)[..|a|] == a && (a + b + c)[|a| + |b|..] == c
  {
  }

  /** What `Finish` wrote opens as the block that was built. */
  lemma FinishedHolds(buffer: Bytes, restarts: seq<nat>, l: Layout)
    requires LaidOut(buffer, l) && |buffer| < TWO_32 && |restarts| < TWO_32 && |restarts| == |l.firsts|
    requires forall j :: 0 <= j < |restarts| ==> restarts[j] == l.offs[l.firsts[j]]
    ensures var data := buffer + Flatten(RestartArray(restarts)) + Fixed32(|restarts|);
            Opened(data) == Some((|buffer|, |restarts|)) && Holds(data, |buffer|, |restarts|, l)
  {
    var points, number := Flatten(RestartArray(restarts)), Fixed32(|restarts|);
    var data := buffer + points + number;
    RestartArrayLength(restarts);
    MiddleSlice(buffer, points, number, 0, 0);
    ReadsFixed32(data[|data| - 4..], |restarts|);
    assert data[..|buffer|] == buffer;
    forall j | 0 <= j < |restarts|
      ensures RestartAt(data, |buffer|, j) == l.offs[l.firsts[j]]
    {
      RestartArrayAt(restarts, j);
      MiddleSlice(buffer, points, number, 4 * j, 4 * j + 4);
      OffsetsInside(buffer, l, l.firsts[j]);
      ReadsFixed32(data[|buffer| + 4 * j..|buffer| + 4 * j + 4], restarts[j]);
    }
  }

  lemma {:induction false} OffsetsAscend(buffer: Bytes, l: Layout, i: nat, j: nat)
    requires LaidOut(buffer, l) && i < j <= |l.es|
    ensures l.offs[i] < l.offs[j]
  {
    assert EntryLies(buffer, l, j - 1);
    if i < j - 1 { OffsetsAscend(buffer, l, i, j - 1); }
  }

  lemma {:induction false} OffsetsGrow(buffer: Bytes, l: Layout, i: nat)
    requires LaidOut(buffer, l) && i <= |l.es|
    ensures i <= l.offs[i]
  {
    if i > 0 {
      OffsetsGrow(buffer, l, i - 1);
      OffsetsAscend(buffer, l, i - 1, i);
    }
  }

  lemma {:induction false} FirstsGrow(l: Layout, j: nat)
    requires |l.es| == |l.shared| && RestartsOk(l) && j < |l.firsts|
    ensures j <= l.firsts[j]
  {
    if j > 0 { FirstsGrow(l, j - 1); }
  }

  /** There are no more restart points than bytes, and one. */
  lemma FewRestarts(buffer: Bytes, l: Layout)
    requires LaidOut(buffer, l)
    ensures |l.firsts| <= |buffer| + 1
    ensures |l.firsts| <= |buffer| || buffer == []
  {
    FirstsGrow(l, |l.firsts| - 1);
    OffsetsGrow(buffer, l, |l.es|);
  }

  lemma OffsetsInside(buffer: Bytes, l: Layout, i: nat)
    requires LaidOut(buffer, l) && i <= |l.es|
    ensures l.offs[i] <= |buffer|
  {
    if i < |l.es| { OffsetsAscend(buffer, l, i, |l.es|); }
  }
}
