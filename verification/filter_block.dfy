/** The filter block of a table: one filter for every 2 KB of block offsets. */
module FilterBlocks {
  import opened Format
  import opened Coding
  import opened Bloom
  import opened Blocks

  const FILTER_BASE_LG: byte := 11
  const FILTER_BASE: nat := 2048

  /** A filter policy: how filters are made and asked. */
  datatype Policy = Policy(create: seq<Bytes> -> Bytes, mayMatch: (Bytes, Bytes) -> bool)

  /** All a policy has to promise: a filter matches the keys it was made for. */
  ghost predicate Sound(p: Policy) {
    forall keys, key :: key in keys ==> p.mayMatch(key, p.create(keys))
  }

  /** The bytes of a filter, none when there are no keys. */
  function FilterOf(p: Policy, keys: seq<Bytes>): Bytes {
    if keys == [] then [] else p.create(keys)
  }

  function Filters(p: Policy, groups: seq<seq<Bytes>>): (r: seq<Bytes>)
    ensures |r| == |groups| && forall i :: 0 <= i < |r| ==> r[i] == FilterOf(p, groups[i])
  {
    seq(|groups|, i requires 0 <= i < |groups| => FilterOf(p, groups[i]))
  }

  /** Where part i of some byte strings laid end to end starts. */
  function StartOf(parts: seq<Bytes>, i: nat): nat
    requires i <= |parts|
  {
    |Flatten(parts[..i])|
  }

  lemma {:induction false} PartLies(parts: seq<Bytes>, i: nat)
    requires i < |parts|
    ensures StartOf(parts, i) + |parts[i]| == StartOf(parts, i + 1) <= |Flatten(parts)|
    ensures Flatten(parts)[StartOf(parts, i)..StartOf(parts, i + 1)] == parts[i]
  {
    FlattenSnoc(parts[..i], parts[i]);
    assert parts[..i + 1] == parts[..i] + [parts[i]];
    FlattenAppend(parts[..i + 1], parts[i + 1..]);
    assert parts == parts[..i + 1] + parts[i + 1..];
  }

  /** A key together with the offset of the block that was open when it was added. */
  datatype Added = Added(offset: nat, key: Bytes)

  /** The key is in the group that its offset leads to. */
  ghost predicate Grouped(groups: seq<seq<Bytes>>, a: Added) {
    a.offset / FILTER_BASE < |groups| && a.key in groups[a.offset / FILTER_BASE]
  }

  /** Where each of some byte strings laid end to end starts. */
  function Starts(parts: seq<Bytes>): (r: seq<nat>)
    ensures |r| == |parts| && forall i :: 0 <= i < |r| ==> r[i] == StartOf(parts, i)
  {
    seq(|parts|, i requires 0 <= i < |parts| => StartOf(parts, i))
  }

  lemma {:induction false} StartsSnoc(parts: seq<Bytes>, part: Bytes)
    ensures Starts(parts + [part]) == Starts(parts) + [|Flatten(parts)|]
    ensures Flatten(parts + [part]) == Flatten(parts) + part
  {
    FlattenSnoc(parts, part);
    forall i | 0 <= i < |parts|
      ensures (parts + [part])[..i] == parts[..i]
    {
    }
    assert (parts + [part])[..|parts|] == parts;
  }

  /** The filter block made of these groups of keys. */
  function Contents(p: Policy, groups: seq<seq<Bytes>>): Bytes {
    var filters := Filters(p, groups);
    Flatten(filters) + Flatten(RestartArray(Starts(filters))) + (Fixed32(|Flatten(filters)|) + [FILTER_BASE_LG])
  }

  /** A new key keeps every key in its group. */
  lemma GroupedGrows(groups: seq<seq<Bytes>>, pending: seq<Bytes>, key: Bytes, a: Added)
    requires Grouped(groups + [pending], a)
    ensures Grouped(groups + [pending + [key]], a)
  {
  }

  /** So does closing a group. */
  lemma GroupedCloses(groups: seq<seq<Bytes>>, a: Added)
    requires Grouped(groups, a)
    ensures Grouped(groups + [[]], a)
  {
  }

  class FilterBlockBuilder {
    const policy: Policy
    var keys: Bytes                    // the keys since the last filter, end to end
    var start: seq<nat>                // where each of them starts
    var result: Bytes                  // the filters so far
    var filterOffsets: seq<nat>
    ghost var pending: seq<Bytes>      // the keys since the last filter
    ghost var groups: seq<seq<Bytes>>  // the keys of every filter made
    ghost var open: nat                // the offset of the open block
    ghost var added: seq<Added>

    ghost predicate Built()
      reads this
    {
      && keys == Flatten(pending) && start == Starts(pending)
      && result == Flatten(Filters(policy, groups)) && filterOffsets == Starts(Filters(policy, groups))
      && (forall a :: a in added ==> Grouped(groups + [pending], a))
    }

    ghost predicate Valid()
      reads this
    {
      Built() && open / FILTER_BASE == |groups|
    }

    constructor (policy: Policy)
      ensures Valid() && this.policy == policy && open == 0 && added == []
    {
      this.policy := policy;
      keys, start, result, filterOffsets := [], [], [], [];
      pending, groups, open, added := [], [], 0, [];
    }

    method AddKey(key: Bytes)
      requires Valid()
      modifies this`keys, this`start, this`pending, this`added
      ensures Valid() && added == old(added) + [Added(open, key)]
    {
      StartsSnoc(pending, key);
      forall a | a in added ensures Grouped(groups + [pending + [key]], a) { GroupedGrows(groups, pending, key, a); }
      start := start + [|keys|];
      keys := keys + key;
      pending := pending + [key];
      added := added + [Added(open, key)];
    }

    /** The keys as they were added, cut out of the flattened form. */
    method CutKeys() returns (tmpKeys: seq<Bytes>)
      requires Built()
      ensures tmpKeys == pending
    {
      var ends := start + [|keys|];
      tmpKeys := [];
      assert pending[..|pending|] == pending;
      for i := 0 to |start|
        invariant tmpKeys == pending[..i]
      {
        PartLies(pending, i);
        tmpKeys := tmpKeys + [keys[ends[i]..ends[i + 1]]];
      }
    }

    method GenerateFilter()
      requires Built()
      modifies this`keys, this`start, this`result, this`filterOffsets, this`pending, this`groups
      ensures Built() && groups == old(groups) + [old(pending)] && pending == []
    {
      ghost var filters := Filters(policy, groups);
      assert Filters(policy, groups + [pending]) == filters + [FilterOf(policy, pending)];
      StartsSnoc(filters, FilterOf(policy, pending));
      forall a | a in added ensures Grouped(groups + [pending] + [[]], a) { GroupedCloses(groups + [pending], a); }
      if start == [] {
        assert result + [] == result;
        filterOffsets := filterOffsets + [|result|];
      } else {
        var tmpKeys := CutKeys();
        filterOffsets := filterOffsets + [|result|];
        result := result + policy.create(tmpKeys);
      }
      keys, start := [], [];
      groups, pending := groups + [pending], [];
    }

    /** A new block starts: the filters before the one its offset leads to are made. */
    method StartBlock(blockOffset: nat)
      requires Valid() && blockOffset >= open
      modifies this
      ensures Valid() && open == blockOffset && added == old(added)
    {
      var filterIndex := blockOffset / FILTER_BASE;
      while filterIndex > |filterOffsets|
        invariant Built() && |groups| <= filterIndex && added == old(added)
        decreases filterIndex - |filterOffsets|
      {
        GenerateFilter();
      }
      open := blockOffset;
    }

    /** The filters, their offsets, where the offsets start, and the size of a range. */
    method Finish() returns (contents: Bytes)
      requires Valid()
      modifies this
      ensures contents == Contents(policy, groups) && added == old(added)
      ensures forall a :: a in added ==> Grouped(groups, a)
    {
      if start != [] {
        GenerateFilter();
      }
      assert pending == [];
      forall a | a in added ensures Grouped(groups, a) { assert Grouped(groups + [pending], a); }
      contents := AppendFixed32s(result, filterOffsets);
      Associate(contents, Fixed32(|result|), [FILTER_BASE_LG]);
      contents := contents + Fixed32(|result|);
      contents := contents + [FILTER_BASE_LG];
    }
  }

  /** The 32-bit word at position p. */
  function WordAt(b: Bytes, p: nat): nat
    requires p + 4 <= |b|
  {
    Unfixed(b[p..p + 4]) % TWO_32
  }

  function ShiftRight(x: nat, n: nat): nat {
    if n == 0 then x else ShiftRight(x / 2, n - 1)
  }

  /** What the reader answers: whether the block at that offset may hold the key.  Anything odd
      counts as a possible match. */
  function BlockMayMatch(p: Policy, contents: Bytes, blockOffset: nat, key: Bytes): bool {
    var n := |contents|;
    if n < 5 || WordAt(contents, n - 5) > n - 5 then true
    else
      var arrayStart := WordAt(contents, n - 5);
      var index := ShiftRight(blockOffset, contents[n - 1] as nat);
      if index >= (n - 5 - arrayStart) / 4 then true
      else
        var start, limit := WordAt(contents, arrayStart + 4 * index), WordAt(contents, arrayStart + 4 * index + 4);
        if start <= limit <= arrayStart then p.mayMatch(key, contents[start..limit])
        else start != limit
  }

  lemma {:induction false} ShiftTwice(x: nat, n: nat)
    requires n >= 2
    ensures ShiftRight(x, n) == ShiftRight(x / 4, n - 2)
  {
    assert ShiftRight(x, n) == ShiftRight(x / 2, n - 1) == ShiftRight(x / 2 / 2, n - 2);
  }

  lemma {:induction false} ShiftByBase(x: nat)
    ensures ShiftRight(x, FILTER_BASE_LG as nat) == x / FILTER_BASE
  {
    ShiftTwice(x, 11);
    ShiftTwice(x / 4, 9);
    ShiftTwice(x / 4 / 4, 7);
    ShiftTwice(x / 4 / 4 / 4, 5);
    ShiftTwice(x / 4 / 4 / 4 / 4, 3);
    assert ShiftRight(x / 4 / 4 / 4 / 4 / 4, 1) == ShiftRight(x / 4 / 4 / 4 / 4 / 4 / 2, 0);
  }

  /** Where the parts of a finished filter block lie. */
  lemma ContentsParts(p: Policy, groups: seq<seq<Bytes>>)
    requires |Flatten(Filters(p, groups))| < TWO_32
    ensures var filters := Filters(p, groups); var all, n := Contents(p, groups), |Contents(p, groups)|;
            && n == |Flatten(filters)| + 4 * |groups| + 5
            && all[..|Flatten(filters)|] == Flatten(filters)
            && WordAt(all, n - 5) == |Flatten(filters)| && all[n - 1] == FILTER_BASE_LG
  {
    var filters, all := Filters(p, groups), Contents(p, groups);
    RestartArrayLength(Starts(filters));
    var tail := Fixed32(|Flatten(filters)|) + [FILTER_BASE_LG];
    MiddleSlice(Flatten(filters), Flatten(RestartArray(Starts(filters))), tail, 0, 0);
    var n := |all|;
    assert all[n - 5..n - 1] == all[n - 5..][..4] == tail[..4] == Fixed32(|Flatten(filters)|);
    assert all[n - 1] == all[n - 5..][4] == tail[4];
    ReadsFixed32(all[n - 5..n - 1], |Flatten(filters)|);
  }

  /** Word i of the offset array; the one behind the last is where the array itself starts. */
  lemma OffsetWord(p: Policy, groups: seq<seq<Bytes>>, i: nat)
    requires |Flatten(Filters(p, groups))| < TWO_32 && i <= |groups|
    ensures |Contents(p, groups)| == |Flatten(Filters(p, groups))| + 4 * |groups| + 5
    ensures WordAt(Contents(p, groups), |Flatten(Filters(p, groups))| + 4 * i) == StartOf(Filters(p, groups), i)
  {
    var filters := Filters(p, groups);
    ContentsParts(p, groups);
    if i < |groups| {
      PartLies(filters, i);
      WordInside(Flatten(filters), Starts(filters), Fixed32(|Flatten(filters)|) + [FILTER_BASE_LG], i);
    } else {
      assert filters[..i] == filters;
    }
  }

  lemma WordInside(front: Bytes, words: seq<nat>, tail: Bytes, i: nat)
    requires i < |words| && words[i] < TWO_32
    ensures var all := front + Flatten(RestartArray(words)) + tail;
            |front| + 4 * i + 4 <= |all| && WordAt(all, |front| + 4 * i) == words[i]
  {
    RestartArrayAt(words, i);
    MiddleSlice(front, Flatten(RestartArray(words)), tail, 4 * i, 4 * i + 4);
    var all := front + Flatten(RestartArray(words)) + tail;
    ReadsFixed32(all[|front| + 4 * i..|front| + 4 * i + 4], words[i]);
  }

  /** Which part of the block the reader hands to the policy. */
  lemma {:induction false} HandsOver(p: Policy, all: Bytes, offset: nat, key: Bytes, arrayStart: nat, count: nat,
                                   start: nat, limit: nat)
    requires |all| == arrayStart + 4 * count + 5 && offset / FILTER_BASE < count
    requires WordAt(all, |all| - 5) == arrayStart && all[|all| - 1] == FILTER_BASE_LG
    requires WordAt(all, arrayStart + 4 * (offset / FILTER_BASE)) == start <= limit <= arrayStart
    requires WordAt(all, arrayStart + 4 * (offset / FILTER_BASE + 1)) == limit
    ensures BlockMayMatch(p, all, offset, key) == p.mayMatch(key, all[start..limit])
  {
    ShiftByBase(offset);
  }

  lemma {:induction false} WordsThere(p: Policy, groups: seq<seq<Bytes>>, i: nat)
    requires |Flatten(Filters(p, groups))| < TWO_32 && i < |groups|
    ensures var filters := Filters(p, groups); var all, n := Contents(p, groups), |Flatten(filters)|;
            && n + 4 * i + 8 <= |all| && |filters| == |groups|
            && WordAt(all, n + 4 * i) == StartOf(filters, i)
            && WordAt(all, n + 4 * (i + 1)) == StartOf(filters, i + 1)
  {
    ContentsParts(p, groups);
    OffsetWord(p, groups, i);
    OffsetWord(p, groups, i + 1);
  }

  /** No false negatives: every key matches at the offset of the block that was open when it was
      added, for any sound policy and any offsets that did not decrease. */
  lemma NoFalseNegatives(p: Policy, groups: seq<seq<Bytes>>, a: Added)
    requires Sound(p) && |Flatten(Filters(p, groups))| < TWO_32 && Grouped(groups, a)
    ensures BlockMayMatch(p, Contents(p, groups), a.offset, a.key)
  {
    var filters, i := Filters(p, groups), a.offset / FILTER_BASE;
    var all, front := Contents(p, groups), Flatten(filters);
    ContentsParts(p, groups);
    WordsThere(p, groups, i);
    PartLies(filters, i);
    HandsOver(p, all, a.offset, a.key, |front|, |groups|, StartOf(filters, i), StartOf(filters, i + 1));
    SliceOfFront(all, |front|, StartOf(filters, i), StartOf(filters, i + 1));
  }

  lemma SliceOfFront(all: Bytes, n: nat, lo: nat, hi: nat)
    requires lo <= hi <= n <= |all|
    ensures all[lo..hi] == all[..n][lo..hi]
  {
  }

  /** The Bloom filter as a policy, with any hash function. */
  lemma BloomIsSound(p: Policy, hash: Hash, bitsPerKey: nat)
    requires forall keys :: IsFilter(hash, keys, bitsPerKey, p.create(keys))
    requires forall key, filter :: p.mayMatch(key, filter) == KeyMayMatch(hash, key, filter)
    ensures Sound(p)
  {
    forall keys, key | key in keys
      ensures p.mayMatch(key, p.create(keys))
    {
      MatchesExactly(hash, keys, bitsPerKey, p.create(keys), key);
    }
  }
}
