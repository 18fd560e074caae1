/** Tables: data blocks, an index block of separators, and a filter; what a finished table is. */
module TableFormat {
  import opened Format
  import opened Coding
  import opened Blocks
  import opened BlockIterators
  import opened Separators
  import opened InternalKeys
  import opened FilterBlocks

  datatype Handle = Handle(offset: nat, size: nat)

  ghost predicate Encodable(h: Handle) {
    h.offset < TWO_64 && h.size < TWO_64
  }

  function EncodeHandle(h: Handle): Bytes {
    Varint(h.offset) + Varint(h.size)
  }

  function DecodeHandle(b: Bytes): Option<Handle> {
    match GetVarint64(b)
    case None => None
    case Some((offset, n)) =>
      match GetVarint64(b[n..])
      case None => None
      case Some((size, _)) => Some(Handle(offset, size))
  }

  lemma HandleRoundTrip(h: Handle)
    requires Encodable(h)
    ensures DecodeHandle(EncodeHandle(h)) == Some(h)
  {
    Varint64RoundTrip(h.offset, Varint(h.size));
    Varint64RoundTrip(h.size, []);
    assert Varint(h.size) + [] == Varint(h.size);
    DropFront(Varint(h.offset), Varint(h.size));
  }

  /** How keys are ordered, what of a key the user sees, and how keys are shortened. */
  datatype Keys = Keys(less: Comparator, user: Bytes -> Option<Bytes>, separator: (Bytes, Bytes) -> Bytes,
                       successor: Bytes -> Bytes)

  /** What the filter sees of a key. */
  function FilterKey(keys: Keys, k: Bytes): Bytes {
    match keys.user(k) case None => [] case Some(u) => u
  }

  /** What the table asks of the key functions: separators separate without growing, and one that
      was shortened leaves no key of the limit's user key at or below it. */
  ghost predicate Suitable(keys: Keys) {
    && IsOrder(keys.less)
    && (forall a, b {:trigger keys.separator(a, b)} ::
          Separates(keys.less, a, b, keys.separator(a, b)) && |keys.separator(a, b)| <= |a|)
    && (forall a, b, k {:trigger keys.less(keys.separator(a, b), k)} ::
          keys.less(a, b) && keys.separator(a, b) != a && !keys.less(keys.separator(a, b), k) ==> keys.user(k) != keys.user(b))
    && (forall a {:trigger keys.successor(a)} :: !keys.less(keys.successor(a), a) && |keys.successor(a)| <= |a|)
  }

  function UserPart(k: Bytes): Option<Bytes> {
    if |k| < TAG then None else Some(UserOf(k))
  }

  /** Below a shortened separator there is no internal key of the limit's user key. */
  lemma ShortenedSeparatorClears(a: Bytes, b: Bytes, k: Bytes)
    requires InternalLess(a, b) && InternalSeparator(a, b) != a && !InternalLess(InternalSeparator(a, b), k)
    ensures UserPart(k) != UserPart(b)
  {
    var u, v := UserOf(a), UserOf(b);
    var tmp := ShortestSeparator(u, v);
    EncodedParts(tmp, SEEK_TAG);
    SeparatorSeparates(u, v);
    SeparatorOfEqual(u);
    assert LexLess(u, v) && LexLess(tmp, v);
    LexIrreflexive(v);
    assert UserPart(k) == UserPart(b) ==> InternalLess(InternalSeparator(a, b), k);
  }

  lemma InternalSeparatorLength(a: Bytes, b: Bytes)
    ensures |InternalSeparator(a, b)| <= |a| && |InternalSuccessor(a)| <= |a|
  {
  }

  /** The store's internal keys are suitable. */
  lemma InternalKeysSuitable()
    ensures Suitable(Keys(InternalLess, UserPart, InternalSeparator, InternalSuccessor))
  {
    InternalIsOrder();
    forall a, b
      ensures Separates(InternalLess, a, b, InternalSeparator(a, b)) && |InternalSeparator(a, b)| <= |a|
    {
      InternalSeparatorSeparates(a, b);
      InternalSeparatorLength(a, b);
    }
    forall a, b, k | InternalLess(a, b) && InternalSeparator(a, b) != a && !InternalLess(InternalSeparator(a, b), k)
      ensures UserPart(k) != UserPart(b)
    {
      ShortenedSeparatorClears(a, b, k);
    }
    forall a
      ensures !InternalLess(InternalSuccessor(a), a) && |InternalSuccessor(a)| <= |a|
    {
      InternalSuccessorNotBelow(a);
      InternalSeparatorLength(a, a);
    }
  }

  /** A data block of a table, and how its pairs are laid out. */
  datatype DataBlock = DataBlock(handle: Handle, restarts: nat, numRestarts: nat, layout: Layout)

  function Slice(file: Bytes, h: Handle): Bytes
    requires h.offset + h.size <= |file|
  {
    file[h.offset..h.offset + h.size]
  }

  ghost predicate BlockIn(file: Bytes, b: DataBlock) {
    && b.handle.offset + b.handle.size <= |file| && b.layout.es != []
    && Opened(Slice(file, b.handle)) == Some((b.restarts, b.numRestarts))
    && Holds(Slice(file, b.handle), b.restarts, b.numRestarts, b.layout)
  }

  /** All pairs of some blocks. */
  function Flat(blocks: seq<DataBlock>): seq<Pair> {
    if blocks == [] then [] else Flat(blocks[..|blocks| - 1]) + blocks[|blocks| - 1].layout.es
  }

  function First(b: DataBlock): Bytes
    requires b.layout.es != []
  {
    b.layout.es[0].key
  }

  function Last(b: DataBlock): Bytes
    requires b.layout.es != []
  {
    b.layout.es[|b.layout.es| - 1].key
  }

  ghost predicate NonEmpty(blocks: seq<DataBlock>) {
    forall i :: 0 <= i < |blocks| ==> blocks[i].layout.es != []
  }

  /** Index entry i leads to block i and separates it from the next one. */
  ghost predicate Leads(keys: Keys, blocks: seq<DataBlock>, i: nat, e: Pair)
    requires i < |blocks| && NonEmpty(blocks)
  {
    && e.value == EncodeHandle(blocks[i].handle) && !keys.less(e.key, Last(blocks[i]))
    && (i + 1 < |blocks| ==> Between(keys, Last(blocks[i]), First(blocks[i + 1]), e.key))
  }

  /** The separator of a block from the key behind it. */
  ghost predicate Between(keys: Keys, last: Bytes, next: Bytes, separator: Bytes) {
    && !keys.less(separator, last) && keys.less(separator, next)
    && (separator == last || forall k :: !keys.less(separator, k) ==> keys.user(k) != keys.user(next))
  }

  /** The index has an entry for every block. */
  ghost predicate Indexed(keys: Keys, blocks: seq<DataBlock>, index: seq<Pair>) {
    && IsOrder(keys.less) && NonEmpty(blocks) && Ascending(keys.less, Flat(blocks)) && |index| == |blocks|
    && forall i :: 0 <= i < |blocks| ==> Leads(keys, blocks, i, index[i])
  }

  /** A finished table. */
  datatype Table = Table(file: Bytes, index: Handle, filter: Option<Bytes>)

  /** The table holds these blocks, indexed and filtered. */
  ghost predicate TableOk(keys: Keys, policy: Policy, t: Table, blocks: seq<DataBlock>, index: DataBlock) {
    && Suitable(keys) && Sound(policy)
    && (forall b :: b in blocks ==> BlockIn(t.file, b) && Encodable(b.handle))
    && t.index == index.handle && t.index.offset + t.index.size <= |t.file|
    && Opened(Slice(t.file, t.index)) == Some((index.restarts, index.numRestarts))
    && Readable(keys.less, Slice(t.file, t.index), index.restarts, index.numRestarts, index.layout)
    && Indexed(keys, blocks, index.layout.es)
    && (t.filter.Some? ==> Filtered(keys, policy, t.filter.value, blocks))
  }

  /** The filter matches every key of every block at the block's offset. */
  ghost predicate Filtered(keys: Keys, policy: Policy, contents: Bytes, blocks: seq<DataBlock>) {
    forall b, e :: b in blocks && e in b.layout.es ==>
      BlockMayMatch(policy, contents, b.handle.offset, FilterKey(keys, e.key))
  }
}
