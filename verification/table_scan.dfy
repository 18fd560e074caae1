/** A scan over the bytes of a table: the list its two-level iterator walks, read from the file. */
module TableScans {
  import opened Format
  import opened Coding
  import opened Blocks
  import opened Separators
  import opened InternalKeys
  import opened FilterBlocks
  import opened TableFormat
  import opened Tables
  import opened BlockIterators
  import TwoLevel

  // Pairs of a block and entries of the store.

  /** An internal key whose user key is among those numbered. */
  predicate IsInternal(users: set<Bytes>, k: Bytes) {
    |k| >= TAG && TagOf(k) / 256 <= MAX_SEQUENCE && TagOf(k) % 256 <= 1 && UserOf(k) in users
  }

  ghost function KeyOf(users: set<Bytes>, k: Bytes): IKey
    requires IsInternal(users, k)
  {
    IKey(Rank(users, LexLess, UserOf(k)), TagOf(k) / 256, if TagOf(k) % 256 == 1 then Put else Deletion)
  }

  ghost predicate AllInternal(users: set<Bytes>, es: seq<Pair>) {
    forall i :: 0 <= i < |es| ==> IsInternal(users, es[i].key)
  }

  ghost function Decode(users: set<Bytes>, es: seq<Pair>): (r: seq<Entry>)
    requires AllInternal(users, es)
    ensures |r| == |es| && forall i :: 0 <= i < |r| ==> r[i] == Entry(KeyOf(users, es[i].key), es[i].value)
  {
    seq(|es|, i requires 0 <= i < |es| => Entry(KeyOf(users, es[i].key), es[i].value))
  }

  /** Decoded keys compare as their bytes do. */
  lemma {:induction false} OrderStands(users: set<Bytes>, a: Bytes, b: Bytes)
    requires IsInternal(users, a) && IsInternal(users, b)
    ensures InternalLess(a, b) <==> Less(KeyOf(users, a), KeyOf(users, b))
  {
    LexIsOrder();
    EmbedsInIntegers(users, LexLess);
    var u, v := UserOf(a), UserOf(b);
    assert u == v || LexLess(u, v) || LexLess(v, u);
    TagsCompare(TagOf(a), TagOf(b));
  }

  lemma TagsCompare(s: nat, t: nat)
    requires s % 256 <= 1 && t % 256 <= 1
    ensures s > t <==> s / 256 > t / 256 || (s / 256 == t / 256 && s % 256 == 1 && t % 256 == 0)
  {
  }

  lemma {:induction false} DecodedSorted(users: set<Bytes>, es: seq<Pair>)
    requires AllInternal(users, es) && Ascending(InternalLess, es)
    ensures Sorted(Decode(users, es))
  {
    forall i, j | 0 <= i < j < |es|
      ensures Less(KeyOf(users, es[i].key), KeyOf(users, es[j].key))
    {
      OrderStands(users, es[i].key, es[j].key);
      assert InternalLess(es[i].key, es[j].key);
    }
  }

  /** A seek in a block lands where a seek in the decoded list does. */
  lemma {:induction false} SeekStands(users: set<Bytes>, es: seq<Pair>, target: Bytes)
    requires AllInternal(users, es) && Ascending(InternalLess, es) && IsInternal(users, target)
    ensures FirstAtOrAfter(InternalLess, es, target) == LowerBound(Decode(users, es), KeyOf(users, target))
  {
    var n := FirstAtOrAfter(InternalLess, es, target);
    DecodedSorted(users, es);
    if n > 0 { OrderStands(users, es[n - 1].key, target); }
    if n < |es| { OrderStands(users, es[n].key, target); }
    LowerBoundUnique(Decode(users, es), KeyOf(users, target), n);
  }

  /** The keys an index is made of are internal keys too. */
  lemma {:induction false} SeparatorIsInternal(users: set<Bytes>, a: Bytes, b: Bytes)
    requires IsInternal(users, a)
    requires |b| >= TAG ==> ShortestSeparator(UserOf(a), UserOf(b)) in users
    ensures IsInternal(users, InternalSeparator(a, b))
  {
    if |b| >= TAG { EncodedParts(ShortestSeparator(UserOf(a), UserOf(b)), SEEK_TAG); }
  }

  lemma {:induction false} SuccessorIsInternal(users: set<Bytes>, a: Bytes)
    requires IsInternal(users, a) && ShortSuccessor(UserOf(a)) in users
    ensures IsInternal(users, InternalSuccessor(a))
  {
    EncodedParts(ShortSuccessor(UserOf(a)), SEEK_TAG);
  }

  // A block.

  lemma Completed(a: Bytes, b: Bytes, n: nat)
    requires |a| == |b| && n <= |a| && a[..n] == b[..n] && a[n..] == b[n..]
    ensures a == b
  {
    assert a == a[..n] + a[n..] && b == b[..n] + b[n..];
  }

  /** Entry i is the same in two layouts of one block that agree up to there. */
  lemma {:induction false} SameEntry(data: Bytes, restarts: nat, l: Layout, l': Layout, i: nat)
    requires restarts <= |data| && restarts < TWO_32 && LaidOut(data[..restarts], l) && LaidOut(data[..restarts], l')
    requires i < |l.es| && i < |l'.es| && l.offs[i] == l'.offs[i] && l.es[..i] == l'.es[..i]
    ensures l.es[i] == l'.es[i] && l.offs[i + 1] == l'.offs[i + 1]
  {
    DecodeAt(data, restarts, l, i);
    DecodeAt(data, restarts, l', i);
    assert EntryLies(data[..restarts], l, i) && EntryLies(data[..restarts], l', i);
    assert i > 0 ==> l.es[i - 1] == l.es[..i][i - 1] == l'.es[i - 1];
    Completed(l.es[i].key, l'.es[i].key, l.shared[i]);
  }

  lemma {:induction false} SameFront(data: Bytes, restarts: nat, l: Layout, l': Layout, i: nat)
    requires restarts <= |data| && restarts < TWO_32 && LaidOut(data[..restarts], l) && LaidOut(data[..restarts], l')
    requires i <= |l.es|
    ensures i <= |l'.es| && l.offs[i] == l'.offs[i] && l.es[..i] == l'.es[..i]
  {
    if i > 0 {
      SameFront(data, restarts, l, l', i - 1);
      DecodeAt(data, restarts, l, i - 1);
      SameEntry(data, restarts, l, l', i - 1);
      assert l.es[..i] == l.es[..i - 1] + [l.es[i - 1]] && l'.es[..i] == l'.es[..i - 1] + [l'.es[i - 1]];
    }
  }

  /** The bytes of a block determine its pairs. */
  lemma {:induction false} BytesFixPairs(data: Bytes, restarts: nat, l: Layout, l': Layout)
    requires restarts <= |data| && restarts < TWO_32 && LaidOut(data[..restarts], l) && LaidOut(data[..restarts], l')
    ensures l.es == l'.es
  {
    SameFront(data, restarts, l, l', |l.es|);
    SameFront(data, restarts, l', l, |l'.es|);
    assert l.es[..|l.es|] == l.es && l'.es[..|l'.es|] == l'.es;
  }

  /** The block a handle names holds these pairs. */
  ghost predicate OpensTo(file: Bytes, handle: Bytes, es: seq<Pair>) {
    exists b: DataBlock :: DecodeHandle(handle) == Some(b.handle) && BlockIn(file, b) && b.layout.es == es
  }

  lemma OpensToOne(file: Bytes, handle: Bytes, es: seq<Pair>, es': seq<Pair>)
    requires OpensTo(file, handle, es) && OpensTo(file, handle, es')
    ensures es == es'
  {
    var b: DataBlock :| DecodeHandle(handle) == Some(b.handle) && BlockIn(file, b) && b.layout.es == es;
    var b': DataBlock :| DecodeHandle(handle) == Some(b'.handle) && BlockIn(file, b') && b'.layout.es == es';
    BytesFixPairs(Slice(file, b.handle), b.restarts, b.layout, b'.layout);
  }

  /** What the block function of a table opens for a handle, as entries of the store. */
  ghost function BlockAt(users: set<Bytes>, file: Bytes, handle: Bytes): seq<Entry> {
    if exists es: seq<Pair> :: OpensTo(file, handle, es) && AllInternal(users, es) then
      var es: seq<Pair> :| OpensTo(file, handle, es) && AllInternal(users, es);
      Decode(users, es)
    else []
  }

  lemma BlockAtIs(users: set<Bytes>, file: Bytes, b: DataBlock)
    requires BlockIn(file, b) && Encodable(b.handle) && AllInternal(users, b.layout.es)
    ensures BlockAt(users, file, EncodeHandle(b.handle)) == Decode(users, b.layout.es)
  {
    var h := EncodeHandle(b.handle);
    HandleRoundTrip(b.handle);
    assert OpensTo(file, h, b.layout.es);
    forall es: seq<Pair> | OpensTo(file, h, es)
      ensures es == b.layout.es
    {
      OpensToOne(file, h, es, b.layout.es);
    }
  }

  // A table.

  /** The pairs of the blocks of a table, one list for each. */
  function PairsOf(blocks: seq<DataBlock>): (r: seq<seq<Pair>>)
    ensures |r| == |blocks| && forall i :: 0 <= i < |r| ==> r[i] == blocks[i].layout.es
  {
    seq(|blocks|, i requires 0 <= i < |blocks| => blocks[i].layout.es)
  }

  /** Every list lies between the index key before it and its own. */
  ghost predicate Fenced(less: Comparator, runs: seq<seq<Pair>>, index: seq<Pair>) {
    && |index| == |runs|
    && (forall i :: 0 <= i < |runs| ==> runs[i] != [] && Ascending(less, runs[i]))
    && (forall i, k {:trigger runs[i][k]} :: 0 <= i < |runs| && 0 <= k < |runs[i]| ==> Fences(less, runs, index, i, k))
  }

  ghost predicate Fences(less: Comparator, runs: seq<seq<Pair>>, index: seq<Pair>, i: nat, k: nat)
    requires i < |runs| == |index| && k < |runs[i]|
  {
    !less(index[i].key, runs[i][k].key) && (i > 0 ==> less(index[i - 1].key, runs[i][k].key))
  }

  lemma NotAbove(less: Comparator, es: seq<Pair>, k: nat, s: Bytes)
    requires IsOrder(less) && Ascending(less, es) && k < |es| && !less(s, es[|es| - 1].key)
    ensures !less(s, es[k].key)
  {
    if k < |es| - 1 { assert less(es[k].key, es[|es| - 1].key); }
  }

  lemma Above(less: Comparator, es: seq<Pair>, k: nat, s: Bytes)
    requires IsOrder(less) && Ascending(less, es) && k < |es| && less(s, es[0].key)
    ensures less(s, es[k].key)
  {
    if k > 0 { assert less(es[0].key, es[k].key); }
  }

  lemma {:induction false} InBlock(keys: Keys, blocks: seq<DataBlock>, index: seq<Pair>, i: nat, k: nat)
    requires Indexed(keys, blocks, index) && i < |blocks| && k < |blocks[i].layout.es|
    ensures Fences(keys.less, PairsOf(blocks), index, i, k)
  {
    BlockAscends(keys, blocks, i);
    assert Leads(keys, blocks, i, index[i]);
    NotAbove(keys.less, blocks[i].layout.es, k, index[i].key);
    if i > 0 {
      assert Leads(keys, blocks, i - 1, index[i - 1]);
      Above(keys.less, blocks[i].layout.es, k, index[i - 1].key);
    }
  }

  lemma {:induction false} IndexedIsFenced(keys: Keys, blocks: seq<DataBlock>, index: seq<Pair>)
    requires Indexed(keys, blocks, index)
    ensures Fenced(keys.less, PairsOf(blocks), index)
  {
    forall i | 0 <= i < |blocks|
      ensures Ascending(keys.less, blocks[i].layout.es)
    {
      BlockAscends(keys, blocks, i);
    }
    forall i, k | 0 <= i < |blocks| && 0 <= k < |blocks[i].layout.es|
      ensures Fences(keys.less, PairsOf(blocks), index, i, k)
    {
      InBlock(keys, blocks, index, i, k);
    }
  }

  lemma FenceBelow(less: Comparator, a: Bytes, b: Bytes, c: Bytes)
    requires IsOrder(less) && less(a, b) && !less(c, b)
    ensures less(a, c)
  {
    assert b == c || less(b, c);
  }

  lemma {:induction false} IndexAscends(less: Comparator, runs: seq<seq<Pair>>, index: seq<Pair>, i: nat, j: nat)
    requires IsOrder(less) && Fenced(less, runs, index) && i < j < |index|
    ensures less(index[i].key, index[j].key)
    decreases j - i
  {
    var e := runs[j][0];
    assert Fences(less, runs, index, j, 0);
    FenceBelow(less, index[j - 1].key, e.key, index[j].key);
    if i < j - 1 {
      IndexAscends(less, runs, index, i, j - 1);
    }
  }

  /** The lists a table is read as: its index, and the blocks the index leads to. */
  ghost predicate ReadsAs(users: set<Bytes>, runs: seq<seq<Pair>>, index: seq<Pair>, open: Bytes -> seq<Entry>) {
    && |index| == |runs| && AllInternal(users, index)
    && (forall i :: 0 <= i < |runs| ==> AllInternal(users, runs[i]) && open(index[i].value) == Decode(users, runs[i]))
  }

  lemma {:induction false} DecodedBetween(users: set<Bytes>, runs: seq<seq<Pair>>, index: seq<Pair>,
                                          open: Bytes -> seq<Entry>, i: nat, k: nat)
    requires ReadsAs(users, runs, index, open) && i < |runs| && k < |runs[i]|
    requires Fences(InternalLess, runs, index, i, k)
    ensures !Less(KeyOf(users, index[i].key), KeyOf(users, runs[i][k].key))
    ensures i > 0 ==> Less(KeyOf(users, index[i - 1].key), KeyOf(users, runs[i][k].key))
  {
    OrderStands(users, index[i].key, runs[i][k].key);
    if i > 0 { OrderStands(users, index[i - 1].key, runs[i][k].key); }
  }

  lemma {:induction false} DecodedIndex(users: set<Bytes>, runs: seq<seq<Pair>>, index: seq<Pair>)
    requires IsOrder(InternalLess) && Fenced(InternalLess, runs, index) && AllInternal(users, index)
    ensures Sorted(Decode(users, index))
  {
    forall i, j | 0 <= i < j < |index|
      ensures InternalLess(index[i].key, index[j].key)
    {
      IndexAscends(InternalLess, runs, index, i, j);
    }
    DecodedSorted(users, index);
  }

  lemma {:induction false} FencedIsWellIndexed(users: set<Bytes>, runs: seq<seq<Pair>>, index: seq<Pair>,
                                               open: Bytes -> seq<Entry>)
    requires IsOrder(InternalLess) && Fenced(InternalLess, runs, index) && ReadsAs(users, runs, index, open)
    ensures TwoLevel.WellIndexed(Decode(users, index), open)
  {
    DecodedIndex(users, runs, index);
    forall i | 0 <= i < |index|
      ensures Sorted(open(index[i].value))
    {
      DecodedSorted(users, runs[i]);
    }
    forall i, k | 0 <= i < |index| && 0 <= k < |open(index[i].value)|
      ensures !Less(KeyOf(users, index[i].key), open(index[i].value)[k].key)
      ensures i > 0 ==> Less(KeyOf(users, index[i - 1].key), open(index[i].value)[k].key)
    {
      assert Fences(InternalLess, runs, index, i, k);
      DecodedBetween(users, runs, index, open, i, k);
    }
  }

  /** All lists, one after another. */
  function Joined(runs: seq<seq<Pair>>): seq<Pair> {
    if runs == [] then [] else Joined(runs[..|runs| - 1]) + runs[|runs| - 1]
  }

  lemma {:induction false} JoinedIsFlat(blocks: seq<DataBlock>)
    ensures Joined(PairsOf(blocks)) == Flat(blocks)
  {
    if blocks != [] {
      JoinedIsFlat(blocks[..|blocks| - 1]);
      assert PairsOf(blocks)[..|blocks| - 1] == PairsOf(blocks[..|blocks| - 1]);
    }
  }

  lemma {:induction false} DecodeJoined(users: set<Bytes>, a: seq<Pair>, b: seq<Pair>)
    requires AllInternal(users, a) && AllInternal(users, b)
    ensures AllInternal(users, a + b) && Decode(users, a + b) == Decode(users, a) + Decode(users, b)
  {
  }

  /** The two-level iterator walks the decoded lists, one after another. */
  lemma {:induction false} WalksJoined(users: set<Bytes>, runs: seq<seq<Pair>>, index: seq<Pair>,
                                       open: Bytes -> seq<Entry>, n: nat)
    requires ReadsAs(users, runs, index, open) && n <= |runs|
    ensures AllInternal(users, Joined(runs[..n]))
    ensures TwoLevel.Flat(Decode(users, index), open, n) == Decode(users, Joined(runs[..n]))
  {
    if n > 0 {
      WalksJoined(users, runs, index, open, n - 1);
      assert runs[..n][..n - 1] == runs[..n - 1] && runs[..n][n - 1] == runs[n - 1];
      DecodeJoined(users, Joined(runs[..n - 1]), runs[n - 1]);
    }
  }

  const STORE_KEYS: Keys := Keys(InternalLess, UserPart, InternalSeparator, InternalSuccessor)

  /** A finished table over internal keys whose user keys are all numbered. */
  ghost predicate TableFor(users: set<Bytes>, policy: Policy, t: Table, blocks: seq<DataBlock>, index: DataBlock) {
    && TableOk(STORE_KEYS, policy, t, blocks, index) && AllInternal(users, index.layout.es)
    && forall b :: b in blocks ==> AllInternal(users, b.layout.es)
  }

  lemma {:induction false} TableReadsAs(users: set<Bytes>, policy: Policy, t: Table, blocks: seq<DataBlock>,
                                        index: DataBlock)
    requires TableFor(users, policy, t, blocks, index)
    ensures ReadsAs(users, PairsOf(blocks), index.layout.es, h => BlockAt(users, t.file, h))
  {
    forall i | 0 <= i < |blocks|
      ensures BlockAt(users, t.file, index.layout.es[i].value) == Decode(users, blocks[i].layout.es)
    {
      assert blocks[i] in blocks && Leads(STORE_KEYS, blocks, i, index.layout.es[i]);
      BlockAtIs(users, t.file, blocks[i]);
    }
  }

  /** What the iterator over a table walks, read from the bytes of its file. */
  ghost function TableList(users: set<Bytes>, file: Bytes, index: seq<Pair>): seq<Entry>
    requires AllInternal(users, index)
  {
    TwoLevel.Flat(Decode(users, index), h => BlockAt(users, file, h), |index|)
  }

  /** The bytes of a finished table, opened block by block as its index says, are a well-indexed
      list: the pairs of its blocks in order. */
  lemma {:induction false} TableIsWalked(users: set<Bytes>, policy: Policy, t: Table, blocks: seq<DataBlock>,
                                         index: DataBlock)
    requires TableFor(users, policy, t, blocks, index)
    ensures TwoLevel.WellIndexed(Decode(users, index.layout.es), h => BlockAt(users, t.file, h))
    ensures AllInternal(users, Flat(blocks))
    ensures TableList(users, t.file, index.layout.es) == Decode(users, Flat(blocks))
  {
    var open := h => BlockAt(users, t.file, h);
    var runs := PairsOf(blocks);
    TableReadsAs(users, policy, t, blocks, index);
    IndexedIsFenced(STORE_KEYS, blocks, index.layout.es);
    InternalIsOrder();
    FencedIsWellIndexed(users, runs, index.layout.es, open);
    WalksJoined(users, runs, index.layout.es, open, |runs|);
    assert runs[..|runs|] == runs;
    JoinedIsFlat(blocks);
  }
}
