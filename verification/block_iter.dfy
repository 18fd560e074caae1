/** The iterator over a block: a cursor over its pairs. */
module BlockIterators {
  import opened Format
  import opened Coding
  import opened Blocks

  /** The position of the first pair at or after the target. */
  function FirstAtOrAfter(less: Comparator, es: seq<Pair>, target: Bytes): (n: nat)
    ensures n <= |es|
    ensures forall i :: 0 <= i < n ==> less(es[i].key, target)
    ensures n < |es| ==> !less(es[n].key, target)
  {
    if es == [] || !less(es[0].key, target) then 0
    else
      var n := FirstAtOrAfter(less, es[1..], target);
      assert forall i :: 0 < i < 1 + n ==> es[i] == es[1..][i - 1];
      1 + n
  }

  lemma {:induction false} FirstIsUnique(less: Comparator, es: seq<Pair>, target: Bytes, n: nat)
    requires IsOrder(less) && Ascending(less, es) && n <= |es|
    requires AllBelow(less, es, n, target)
    requires n < |es| ==> !less(es[n].key, target)
    ensures FirstAtOrAfter(less, es, target) == n
  {
  }

  /** The header d decodes entry i. */
  ghost predicate DecodesTo(data: Bytes, l: Layout, i: nat, d: Decoded)
    requires i < |l.es| == |l.shared| && |l.offs| == |l.es| + 1
  {
    var p := l.offs[i] + d.header;
    && d.shared == l.shared[i] <= |l.es[i].key| && d.nonShared == |l.es[i].key| - d.shared
    && d.valueLength == |l.es[i].value| && p + d.nonShared + d.valueLength == l.offs[i + 1] <= |data|
    && data[p..p + d.nonShared] == l.es[i].key[d.shared..]
    && data[p + d.nonShared..p + d.nonShared + d.valueLength] == l.es[i].value
  }

  lemma EntryAssociates(a: Bytes, b: Bytes, c: Bytes, body: Bytes, rest: Bytes)
    ensures a + (b + (c + body)) + rest == a + (b + (c + (body + rest))) == a + b + c + (body + rest)
  {
  }

  /** An entry in front of other bytes decodes to its header, with key and value behind that. */
  lemma EntryDecodes(shared: nat, delta: Bytes, value: Bytes, rest: Bytes) returns (header: Bytes)
    requires shared < TWO_32 && |delta| + |value| < TWO_32
    ensures |EntryBytes(shared, delta, value)| == |header| + |delta| + |value|
    ensures EntryBytes(shared, delta, value) + rest == header + (delta + value + rest)
    ensures DecodeEntry(header + (delta + value + rest)) == Some(Decoded(|header|, shared, |delta|, |value|))
  {
    header := Varint(shared) + Varint(|delta|) + Varint(|value|);
    EntryAssociates(Varint(shared), Varint(|delta|), Varint(|value|), delta + value, rest);
    DecodeThree(shared, |delta|, |value|, delta + value + rest);
  }

  lemma TailParts(header: Bytes, delta: Bytes, value: Bytes, rest: Bytes)
    ensures var b, n := header + (delta + value + rest), |header|;
            b[n..n + |delta|] == delta && b[n + |delta|..n + |delta| + |value|] == value
  {
  }

  /** A key is no longer than the bytes up to the end of its entry. */
  lemma {:induction false} KeyIsShort(buffer: Bytes, l: Layout, i: nat)
    requires LaidOut(buffer, l) && i < |l.es|
    ensures |l.es[i].key| <= l.offs[i + 1]
  {
    assert EntryLies(buffer, l, i);
    if i > 0 { KeyIsShort(buffer, l, i - 1); }
  }

  lemma DecodeAt(data: Bytes, restarts: nat, l: Layout, i: nat)
    requires restarts <= |data| && restarts < TWO_32 && LaidOut(data[..restarts], l) && i < |l.es|
    ensures l.offs[i] < l.offs[i + 1] <= restarts
    ensures var r := DecodeEntry(data[l.offs[i]..restarts]); r.Some? && DecodesTo(data, l, i, r.value)
  {
    var block := data[..restarts];
    assert EntryLies(block, l, i);
    OffsetsInside(block, l, i + 1);
    KeyIsShort(block, l, i);
    EntryDecodesThere(data, restarts, l.offs[i], l.offs[i + 1], l.shared[i], l.es[i].key[l.shared[i]..], l.es[i].value);
  }

  lemma EntryDecodesThere(data: Bytes, restarts: nat, o: nat, o': nat, shared: nat, delta: Bytes, value: Bytes)
    requires o <= o' <= restarts <= |data| && data[..restarts][o..o'] == EntryBytes(shared, delta, value)
    requires shared < TWO_32 && |delta| + |value| < TWO_32
    ensures var n := o' - o - |delta| - |value|;
            && DecodeEntry(data[o..restarts]) == Some(Decoded(n, shared, |delta|, |value|))
            && data[o + n..o + n + |delta|] == delta && data[o + n + |delta|..o'] == value
  {
    var rest := data[o'..restarts];
    SplitAt(data, o, o', restarts);
    var header := EntryDecodes(shared, delta, value, rest);
    PartsThere(data, o, restarts, header, delta, value, rest);
  }

  lemma SplitAt(data: Bytes, o: nat, o': nat, end: nat)
    requires o <= o' <= end <= |data|
    ensures data[o..end] == data[..end][o..o'] + data[o'..end]
  {
  }

  lemma PartsThere(data: Bytes, o: nat, end: nat, header: Bytes, delta: Bytes, value: Bytes, rest: Bytes)
    requires o <= end <= |data| && data[o..end] == header + (delta + value + rest)
    ensures var p := o + |header|;
            p + |delta| + |value| <= |data| && data[p..p + |delta|] == delta && data[p + |delta|..p + |delta| + |value|] == value
  {
    var n := |header|;
    TailParts(header, delta, value, rest);
    SubSlice(data, o, end, n, n + |delta|);
    SubSlice(data, o, end, n + |delta|, n + |delta| + |value|);
  }

  lemma SubSlice(data: Bytes, lo: nat, hi: nat, a: nat, b: nat)
    requires lo <= hi <= |data| && a <= b <= hi - lo
    ensures data[lo..hi][a..b] == data[lo + a..lo + b]
  {
    assert forall k :: 0 <= k < b - a ==> data[lo..hi][a..b][k] == data[lo + a..lo + b][k];
  }

  /** The key at hand can be completed to the one of entry i. */
  ghost predicate Extends(l: Layout, key: Bytes, i: nat)
    requires i < |l.es| == |l.shared|
  {
    l.shared[i] <= |key| && l.shared[i] <= |l.es[i].key| && key[..l.shared[i]] == l.es[i].key[..l.shared[i]]
  }

  /** What is fixed of a block and its iterator. */
  ghost predicate Readable(less: Comparator, data: Bytes, restarts: nat, numRestarts: nat, l: Layout) {
    Holds(data, restarts, numRestarts, l) && IsOrder(less) && Ascending(less, l.es)
  }

  /** Restart point r lies at or before offset o. */
  ghost predicate StartsBy(l: Layout, r: nat, o: nat)
    requires |l.es| == |l.shared| && |l.offs| == |l.es| + 1
  {
    r < |l.firsts| && l.firsts[r] <= |l.es| && l.offs[l.firsts[r]] <= o
  }

  lemma NextExtends(buffer: Bytes, l: Layout, i: nat)
    requires LaidOut(buffer, l) && i + 1 < |l.es|
    ensures Extends(l, l.es[i].key, i + 1)
  {
    assert EntryLies(buffer, l, i + 1);
  }

  lemma FirstExtends(buffer: Bytes, l: Layout, r: nat, key: Bytes)
    requires LaidOut(buffer, l) && r < |l.firsts| && l.firsts[r] < |l.es|
    ensures Extends(l, key, l.firsts[r])
  {
    assert EntryLies(buffer, l, l.firsts[r]);
  }

  lemma OffsetOrder(buffer: Bytes, l: Layout, i: nat, j: nat)
    requires LaidOut(buffer, l) && i <= |l.es| && j <= |l.es|
    ensures l.offs[i] < l.offs[j] <==> i < j
    ensures l.offs[i] <= |buffer|
  {
    if i < j { OffsetsAscend(buffer, l, i, j); }
    if j < i { OffsetsAscend(buffer, l, j, i); }
    OffsetsInside(buffer, l, i);
  }

  class BlockIter {
    const less: Comparator
    const data: Bytes
    const restarts: nat            // where the restart array starts
    const numRestarts: nat
    var current: nat               // offset of the current entry, `restarts` when there is none
    var restartIndex: nat
    var key: Bytes
    var valueStart: nat
    var valueLength: nat
    var corrupt: bool
    ghost const layout: Layout
    ghost var at: nat              // the index of the current entry

    ghost predicate Stable() {
      Readable(less, data, restarts, numRestarts, layout)
    }

    /** The iterator stands on entry `at`, or behind the last one. */
    ghost predicate Valid()
      reads this
    {
      && Stable() && !corrupt && at <= |layout.es|
      && if at < |layout.es| then
           && current == layout.offs[at] && key == layout.es[at].key
           && NextEntryOffset() == layout.offs[at + 1] <= |data|
           && data[valueStart..valueStart + valueLength] == layout.es[at].value
           && StartsBy(layout, restartIndex, current)
         else
           current == restarts && restartIndex == numRestarts
    }

    /** The next call of `ParseNextKey` finds entry i. */
    ghost predicate Ready(i: nat)
      reads this
    {
      && Stable() && !corrupt && i <= |layout.es| && NextEntryOffset() == layout.offs[i]
      && StartsBy(layout, restartIndex, layout.offs[i])
      && (i < |layout.es| ==> Extends(layout, key, i))
    }

    constructor (less: Comparator, data: Bytes, restarts: nat, numRestarts: nat, ghost layout: Layout)
      requires Readable(less, data, restarts, numRestarts, layout)
      ensures Valid() && at == |layout.es| && this.layout == layout && this.less == less
      ensures this.data == data && this.restarts == restarts && this.numRestarts == numRestarts
    {
      this.less, this.data, this.restarts, this.numRestarts, this.layout := less, data, restarts, numRestarts, layout;
      current, restartIndex, key, valueStart, valueLength, corrupt := restarts, numRestarts, [], 0, 0, false;
      at := |layout.es|;
    }

    function NextEntryOffset(): nat
      reads this
    {
      valueStart + valueLength
    }

    /** Whether the iterator stands on an entry. */
    predicate OnEntry()
      reads this
    {
      current < restarts
    }

    function Value(): Bytes
      requires NextEntryOffset() <= |data|
      reads this
    {
      data[valueStart..valueStart + valueLength]
    }

    lemma OnEntryIsAt()
      requires Valid()
      ensures OnEntry() <==> at < |layout.es|
      ensures OnEntry() ==> key == layout.es[at].key && NextEntryOffset() <= |data| && Value() == layout.es[at].value
    {
      OffsetOrder(data[..restarts], layout, at, |layout.es|);
    }

    function GetRestartPoint(index: nat): (o: nat)
      requires Stable() && index < numRestarts
      ensures layout.firsts[index] <= |layout.es| && o == layout.offs[layout.firsts[index]]
    {
      RestartAt(data, restarts, index)
    }

    method SeekToRestartPoint(index: nat)
      requires Stable() && !corrupt && index < numRestarts
      modifies this
      ensures Ready(layout.firsts[index]) && restartIndex == index
    {
      key := [];
      restartIndex := index;
      valueStart, valueLength := GetRestartPoint(index), 0;
      if layout.firsts[index] < |layout.es| { FirstExtends(data[..restarts], layout, index, key); }
    }

    method Invalidate()
      requires Stable() && !corrupt
      modifies this`current, this`restartIndex, this`at
      ensures Valid() && at == |layout.es|
    {
      current := restarts;
      restartIndex := numRestarts;
      at := |layout.es|;
    }

    /** Moves the restart index on to the last restart point before the current entry. */
    method CatchUp()
      requires Stable() && StartsBy(layout, restartIndex, current)
      modifies this`restartIndex
      ensures StartsBy(layout, restartIndex, current)
      ensures restartIndex + 1 < numRestarts ==> current <= GetRestartPoint(restartIndex + 1)
    {
      while restartIndex + 1 < numRestarts && GetRestartPoint(restartIndex + 1) < current
        invariant StartsBy(layout, restartIndex, current)
        decreases numRestarts - restartIndex
      {
        restartIndex := restartIndex + 1;
      }
    }

    /** Takes key and value from the entry at the current offset. */
    method TakeEntry(ghost i: nat)
      requires Stable() && i < |layout.es| && current == layout.offs[i] && Extends(layout, key, i)
      modifies this`key, this`valueStart, this`valueLength
      ensures key == layout.es[i].key && NextEntryOffset() == layout.offs[i + 1] <= |data|
      ensures data[valueStart..valueStart + valueLength] == layout.es[i].value
    {
      DecodeAt(data, restarts, layout, i);
      var d := DecodeEntry(data[current..restarts]).value;
      var p := current + d.header;
      CompletesKey(key, layout.es[i].key, d.shared);
      key := key[..d.shared] + data[p..p + d.nonShared];
      valueStart, valueLength := p + d.nonShared, d.valueLength;
    }

    lemma CompletesKey(before: Bytes, k: Bytes, shared: nat)
      requires shared <= |before| && shared <= |k| && before[..shared] == k[..shared]
      ensures before[..shared] + k[shared..] == k
    {
    }

    method ParseNextKey(ghost i: nat) returns (more: bool)
      requires Ready(i)
      modifies this
      ensures Valid() && at == i && (more <==> i < |layout.es|)
    {
      current := NextEntryOffset();
      OffsetOrder(data[..restarts], layout, i, |layout.es|);
      if current >= restarts {
        Invalidate();
        return false;
      }
      TakeEntry(i);
      at := i;
      CatchUp();
      more := true;
    }

    /** Parses the entry behind the current one. */
    method ParseOn() returns (more: bool)
      requires Valid() && at < |layout.es|
      modifies this
      ensures Valid() && at == old(at) + 1 && (more <==> at < |layout.es|)
    {
      if at + 1 < |layout.es| { NextExtends(data[..restarts], layout, at); }
      OffsetOrder(data[..restarts], layout, at, at + 1);
      more := ParseNextKey(at + 1);
    }

    method Next()
      requires Valid() && at < |layout.es|
      modifies this
      ensures Valid() && at == old(at) + 1
    {
      var _ := ParseOn();
    }

    /** Parses on to the last entry before offset `stop`, the start of entry i or the end. */
    method ScanUpTo(stop: nat, ghost j: nat, ghost i: nat)
      requires Ready(j) && j < i <= |layout.es| && stop == layout.offs[i]
      modifies this
      ensures Valid() && at == i - 1
    {
      var more := ParseNextKey(j);
      OffsetOrder(data[..restarts], layout, at + 1, i);
      while more && NextEntryOffset() < stop
        invariant Valid() && j <= at < i && more
        invariant NextEntryOffset() < stop <==> at + 1 < i
        decreases i - at
      {
        more := ParseOn();
        OffsetOrder(data[..restarts], layout, at + 1, i);
      }
    }

    /** Steps back: to a restart point before the current entry, and forward from there. */
    method Prev()
      requires Valid() && at < |layout.es|
      modifies this
      ensures Valid() && at == if old(at) == 0 then |layout.es| else old(at) - 1
    {
      var original := current;
      ghost var i := at;
      while GetRestartPoint(restartIndex) >= original
        invariant Valid() && at == i && current == original
        decreases restartIndex
      {
        OffsetOrder(data[..restarts], layout, layout.firsts[restartIndex], i);
        if restartIndex == 0 {
          OffsetOrder(data[..restarts], layout, 0, i);
          Invalidate();
          return;
        }
        OffsetOrder(data[..restarts], layout, layout.firsts[restartIndex - 1], layout.firsts[restartIndex]);
        StepsBack(i);
        restartIndex := restartIndex - 1;
      }
      OffsetOrder(data[..restarts], layout, layout.firsts[restartIndex], i);
      SeekToRestartPoint(restartIndex);
      ScanUpTo(original, layout.firsts[restartIndex], i);
    }

    /** The restart point before the one at hand is no later than the current entry. */
    lemma StepsBack(i: nat)
      requires Valid() && at == i < |layout.es| && restartIndex > 0
      ensures StartsBy(layout, restartIndex - 1, current)
    {
      assert layout.firsts[restartIndex - 1] < layout.firsts[restartIndex];
      OffsetOrder(data[..restarts], layout, layout.firsts[restartIndex - 1], layout.firsts[restartIndex]);
    }

    method SeekToFirst()
      requires Valid()
      modifies this
      ensures Valid() && at == 0
    {
      SeekToRestartPoint(0);
      var _ := ParseNextKey(0);
    }

    method SeekToLast()
      requires Valid()
      modifies this
      ensures Valid() && at == if layout.es == [] then 0 else |layout.es| - 1
    {
      SeekToRestartPoint(numRestarts - 1);
      if restarts == 0 {
        OffsetOrder(data[..restarts], layout, 0, |layout.es|);
        var _ := ParseNextKey(0);
      } else {
        ScanUpTo(restarts, layout.firsts[numRestarts - 1], |layout.es|);
      }
    }
  
    /** The key at a restart point, read without its neighbours. */
    method RestartKey(index: nat) returns (k: Bytes)
      requires Stable() && index < numRestarts && layout.es != []
      ensures layout.firsts[index] < |layout.es| && k == layout.es[layout.firsts[index]].key
    {
      var o := GetRestartPoint(index);
      DecodeAt(data, restarts, layout, layout.firsts[index]);
      var d := DecodeEntry(data[o..restarts]).value;
      assert d.shared == 0;
      k := data[o + d.header..o + d.header + d.nonShared];
      assert k == layout.es[layout.firsts[index]].key[0..];
    }

    /** The last restart point whose key is below the target, or the first one. */
    method SearchRestarts(target: Bytes) returns (left: nat)
      requires Stable()
      ensures left < numRestarts && layout.firsts[left] <= |layout.es|
      ensures AllBelow(less, layout.es, layout.firsts[left], target)
      ensures forall r :: left < r < numRestarts && layout.es != [] ==> !less(layout.es[layout.firsts[r]].key, target)
    {
      var right := numRestarts - 1;
      left := 0;
      while left < right
        invariant left <= right < numRestarts
        invariant left > 0 ==> layout.es != [] && less(layout.es[layout.firsts[left]].key, target)
        invariant right < numRestarts - 1 ==> layout.es != [] && !less(layout.es[layout.firsts[right + 1]].key, target)
        decreases right - left
      {
        var mid := (left + right + 1) / 2;
        var midKey := RestartKey(mid);
        if less(midKey, target) {
          left := mid;
        } else {
          right := mid - 1;
        }
      }
      forall i | 0 <= i < layout.firsts[left]
        ensures less(layout.es[i].key, target)
      {
        assert less(layout.es[i].key, layout.es[layout.firsts[left]].key);
      }
      forall r | left < r < numRestarts && layout.es != []
        ensures !less(layout.es[layout.firsts[r]].key, target)
      {
        if r > right + 1 {
          assert layout.firsts[right + 1] < layout.firsts[r];
          assert less(layout.es[layout.firsts[right + 1]].key, layout.es[layout.firsts[r]].key);
        }
      }
    }

    /** Binary search among the restart points, then a scan to the first key at or after the target. */
    method Seek(target: Bytes)
      requires Valid()
      modifies this
      ensures Valid() && at == FirstAtOrAfter(less, layout.es, target)
    {
      var left := SearchRestarts(target);
      SeekToRestartPoint(left);
      ghost var j := layout.firsts[left];
      var more := ParseNextKey(j);
      while more && less(key, target)
        invariant Valid() && j <= at <= |layout.es| && (more <==> at < |layout.es|)
        invariant AllBelow(less, layout.es, at, target)
        decreases |layout.es| - at
      {
        BelowSnoc(less, layout.es, at, target);
        more := ParseOn();
      }
      FirstIsUnique(less, layout.es, target, at);
    }
  }

  ghost predicate AllBelow(less: Comparator, es: seq<Pair>, n: nat, target: Bytes)
    requires n <= |es|
  {
    forall i :: 0 <= i < n ==> less(es[i].key, target)
  }

  lemma BelowSnoc(less: Comparator, es: seq<Pair>, n: nat, target: Bytes)
    requires n < |es| && AllBelow(less, es, n, target) && less(es[n].key, target)
    ensures AllBelow(less, es, n + 1, target)
  {
  }
}
