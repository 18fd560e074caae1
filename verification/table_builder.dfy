/** Building a table: data blocks as pairs arrive, an index entry for a block once the next key
    is known, and the filter alongside. */
module TableBuilders {
  import opened Format
  import opened Coding
  import opened Blocks
  import opened Separators
  import opened FilterBlocks
  import opened TableFormat
  import opened Tables

  const LARGE: nat := 0x1000_0000_0000_0000

  /** The blocks written so far are in the file. */
  ghost predicate BlocksIn(file: Bytes, blocks: seq<DataBlock>) {
    NonEmpty(blocks) && forall b :: b in blocks ==> BlockIn(file, b) && Encodable(b.handle)
  }

  /** The index entries so far lead to their blocks; with a pending entry the last one is missing. */
  ghost predicate IndexSoFar(keys: Keys, blocks: seq<DataBlock>, index: seq<Pair>, pending: bool)
    requires NonEmpty(blocks)
  {
    && |index| == |blocks| - (if pending then 1 else 0)
    && forall i :: 0 <= i < |index| ==> Leads(keys, blocks, i, index[i])
  }

  /** What lies between the last block and the pairs not yet in a block. */
  ghost predicate Junction(keys: Keys, blocks: seq<DataBlock>, index: seq<Pair>, es: seq<Pair>, pending: bool,
                           lastKey: Bytes, handle: Handle)
    requires IndexSoFar.requires(keys, blocks, index, pending) && IndexSoFar(keys, blocks, index, pending)
  {
    if pending then
      blocks != [] && es == [] && lastKey == Last(blocks[|blocks| - 1]) && handle == blocks[|blocks| - 1].handle
    else
      && (es == [] ==> blocks == []) && lastKey == LastKey(es)
      && (blocks != [] ==> Between(keys, Last(blocks[|blocks| - 1]), es[0].key, index[|index| - 1].key))
  }

  /** The filter has been given every key at its block's offset. */
  ghost predicate Told(keys: Keys, added: seq<Added>, blocks: seq<DataBlock>, es: seq<Pair>, offset: nat) {
    && (forall b, e :: b in blocks && e in b.layout.es ==> Added(b.handle.offset, FilterKey(keys, e.key)) in added)
    && (forall e :: e in es ==> Added(offset, FilterKey(keys, e.key)) in added)
  }

  lemma BlockStaysIn(file: Bytes, more: Bytes, b: DataBlock)
    requires BlockIn(file, b)
    ensures BlockIn(file + more, b)
  {
    assert Slice(file + more, b.handle) == Slice(file, b.handle);
  }

  lemma BlocksStayIn(file: Bytes, more: Bytes, blocks: seq<DataBlock>)
    requires BlocksIn(file, blocks)
    ensures BlocksIn(file + more, blocks)
  {
    forall b | b in blocks ensures BlockIn(file + more, b) { BlockStaysIn(file, more, b); }
  }

  /** A block's contents written at the end of the file. */
  lemma BlockWritten(file: Bytes, contents: Bytes, trailer: Bytes, b: DataBlock)
    requires b.handle == Handle(|file|, |contents|) && b.layout.es != []
    requires Opened(contents) == Some((b.restarts, b.numRestarts)) && Holds(contents, b.restarts, b.numRestarts, b.layout)
    ensures BlockIn(file + contents + trailer, b)
  {
    assert Slice(file + contents + trailer, b.handle) == contents;
  }

  lemma BlocksInSnoc(file: Bytes, contents: Bytes, trailer: Bytes, blocks: seq<DataBlock>, b: DataBlock)
    requires BlocksIn(file, blocks) && Encodable(b.handle)
    requires b.handle == Handle(|file|, |contents|) && b.layout.es != []
    requires Opened(contents) == Some((b.restarts, b.numRestarts)) && Holds(contents, b.restarts, b.numRestarts, b.layout)
    ensures BlocksIn(file + contents + trailer, blocks + [b])
  {
    BlockWritten(file, contents, trailer, b);
    BlocksStayIn(file, contents + trailer, blocks);
    Associate(file, contents, trailer);
  }

  lemma {:induction false} FlatSnoc(blocks: seq<DataBlock>, b: DataBlock)
    ensures Flat(blocks + [b]) == Flat(blocks) + b.layout.es
  {
    assert (blocks + [b])[..|blocks|] == blocks;
  }

  /** A new block is written out before its index entry: the entries so far still lead. */
  lemma IndexAtFlush(keys: Keys, blocks: seq<DataBlock>, index: seq<Pair>, b: DataBlock, lastKey: Bytes, handle: Handle)
    requires NonEmpty(blocks) && b.layout.es != [] && IndexSoFar(keys, blocks, index, false)
    requires Junction(keys, blocks, index, b.layout.es, false, lastKey, handle)
    ensures NonEmpty(blocks + [b]) && IndexSoFar(keys, blocks + [b], index, true)
    ensures Junction(keys, blocks + [b], index, [], true, lastKey, b.handle)
  {
    forall i | 0 <= i < |index|
      ensures Leads(keys, blocks + [b], i, index[i])
    {
      assert Leads(keys, blocks, i, index[i]);
    }
  }

  /** A file of blocks, their index so far, and the pairs for the next block. */
  ghost predicate TableSoFar(keys: Keys, file: Bytes, blocks: seq<DataBlock>, index: seq<Pair>, es: seq<Pair>,
                             pending: bool, lastKey: Bytes, handle: Handle)
  {
    && BlocksIn(file, blocks) && Ascending(keys.less, Flat(blocks) + es)
    && IndexSoFar(keys, blocks, index, pending)
    && Junction(keys, blocks, index, es, pending, lastKey, handle)
  }

  lemma {:induction false} TableAtFlush(keys: Keys, file: Bytes, blocks: seq<DataBlock>, index: seq<Pair>,
                                        es: seq<Pair>, lastKey: Bytes, handle: Handle, b: DataBlock, contents: Bytes,
                                        trailer: Bytes)
    requires TableSoFar(keys, file, blocks, index, es, false, lastKey, handle)
    requires b.handle == Handle(|file|, |contents|) && Encodable(b.handle) && b.layout.es == es != []
    requires Opened(contents) == Some((b.restarts, b.numRestarts)) && Holds(contents, b.restarts, b.numRestarts, b.layout)
    ensures TableSoFar(keys, file + contents + trailer, blocks + [b], index, [], true, lastKey, b.handle)
    ensures Flat(blocks + [b]) + [] == Flat(blocks) + es
  {
    BlocksInSnoc(file, contents, trailer, blocks, b);
    IndexAtFlush(keys, blocks, index, b, lastKey, handle);
    FlatSnoc(blocks, b);
    assert Flat(blocks + [b]) + [] == Flat(blocks) + es;
  }

  /** The pending entry is added once the first key behind its block is known. */
  lemma IndexAtNext(keys: Keys, blocks: seq<DataBlock>, index: seq<Pair>, lastKey: Bytes, handle: Handle, e: Pair)
    requires NonEmpty(blocks) && IndexSoFar(keys, blocks, index, true)
    requires Junction(keys, blocks, index, [], true, lastKey, handle)
    requires Suitable(keys) && keys.less(lastKey, e.key) && Ascending(keys.less, blocks[|blocks| - 1].layout.es)
    ensures IndexSoFar(keys, blocks, index + [Pair(keys.separator(lastKey, e.key), EncodeHandle(handle))], false)
    ensures Junction(keys, blocks, index + [Pair(keys.separator(lastKey, e.key), EncodeHandle(handle))], [e], false, e.key, handle)
    ensures index != [] ==> keys.less(index[|index| - 1].key, keys.separator(lastKey, e.key))
  {
    var s := keys.separator(lastKey, e.key);
    assert Separates(keys.less, lastKey, e.key, s);
    assert Between(keys, lastKey, e.key, s);
    EntriesAscend(keys, blocks, index, s);
  }

  /** A key that is not below the last block's last key lies behind every index entry before. */
  lemma EntriesAscend(keys: Keys, blocks: seq<DataBlock>, index: seq<Pair>, s: Bytes)
    requires NonEmpty(blocks) && IndexSoFar(keys, blocks, index, true) && blocks != [] && IsOrder(keys.less)
    requires Ascending(keys.less, blocks[|blocks| - 1].layout.es) && !keys.less(s, Last(blocks[|blocks| - 1]))
    ensures index != [] ==> keys.less(index[|index| - 1].key, s)
  {
    if index != [] {
      var i := |index| - 1;
      assert Leads(keys, blocks, i, index[i]);
      var b := blocks[i + 1];
      assert |b.layout.es| > 1 ==> keys.less(First(b), Last(b));
      assert keys.less(index[i].key, Last(b));
    }
  }

  /** The keys of the open block stay told when it has been written. */
  lemma ToldAtFlush(keys: Keys, added: seq<Added>, blocks: seq<DataBlock>, es: seq<Pair>, offset: nat, b: DataBlock,
                    next: nat)
    requires Told(keys, added, blocks, es, offset) && b.handle.offset == offset && b.layout.es == es
    ensures Told(keys, added, blocks + [b], [], next)
  {
  }

  /** The index entry due, once the key behind its block is known: it fits, and with it nothing is due. */
  lemma PendingSettled(keys: Keys, file: Bytes, blocks: seq<DataBlock>, index: seq<Pair>, es: seq<Pair>, lastKey: Bytes,
                       handle: Handle, e: Pair)
    requires Suitable(keys) && TableSoFar(keys, file, blocks, index, es, true, lastKey, handle) && keys.less(lastKey, e.key)
    ensures |keys.separator(lastKey, e.key)| <= |lastKey| && |EncodeHandle(handle)| <= 20
    ensures index != [] ==> keys.less(LastKey(index), keys.separator(lastKey, e.key))
    ensures var entry := Pair(keys.separator(lastKey, e.key), EncodeHandle(handle));
            IndexSoFar(keys, blocks, index + [entry], false)
            && Junction(keys, blocks, index + [entry], [e], false, e.key, handle)
  {
    FlatLast(blocks);
    AscendingTail(keys.less, Flat(blocks), blocks[|blocks| - 1].layout.es, es);
    IndexAtNext(keys, blocks, index, lastKey, handle, e);
    assert blocks[|blocks| - 1] in blocks;
    HandleIsShort(handle);
    assert Separates(keys.less, lastKey, e.key, keys.separator(lastKey, e.key));
  }

  class TableBuilder {
    const keys: Keys
    const policy: Policy
    const hasFilter: bool
    const crc: Bytes -> word
    const blockSize: nat
    const dataBlock: BlockBuilder
    const indexBlock: BlockBuilder
    const filterBlock: FilterBlockBuilder
    var file: Bytes
    var lastKey: Bytes
    var pendingIndexEntry: bool
    var pendingHandle: Handle
    ghost var blocks: seq<DataBlock>

    /** The pairs added so far. */
    ghost function All(): seq<Pair>
      reads this, dataBlock
    {
      Flat(blocks) + dataBlock.layout.es
    }

    /** Data blocks and index are as they should be. */
    ghost predicate DataOk()
      reads this, dataBlock, indexBlock
    {
      && dataBlock != indexBlock && Suitable(keys) && dataBlock.less == keys.less && indexBlock.less == keys.less
      && dataBlock.Valid() && indexBlock.Valid()
      && TableSoFar(keys, file, blocks, indexBlock.layout.es, dataBlock.layout.es, pendingIndexEntry, lastKey, pendingHandle)
    }

    /** So is the filter. */
    ghost predicate FilterOk()
      reads this, dataBlock, filterBlock
    {
      && filterBlock.Valid() && filterBlock.policy == policy
      && (hasFilter ==> filterBlock.open == |file| && Told(keys, filterBlock.added, blocks, dataBlock.layout.es, |file|))
    }

    ghost predicate Valid()
      reads this, dataBlock, indexBlock, filterBlock
    {
      DataOk() && FilterOk()
    }

    constructor (keys: Keys, policy: Policy, hasFilter: bool, crc: Bytes -> word, blockSize: nat, interval: nat)
      requires Suitable(keys) && interval >= 1
      ensures Valid() && All() == [] && fresh(dataBlock) && fresh(indexBlock) && fresh(filterBlock)
      ensures this.keys == keys && this.policy == policy && this.hasFilter == hasFilter
    {
      this.keys, this.policy, this.hasFilter, this.crc, this.blockSize := keys, policy, hasFilter, crc, blockSize;
      dataBlock := new BlockBuilder(keys.less, interval);
      indexBlock := new BlockBuilder(keys.less, 1);
      filterBlock := new FilterBlockBuilder(policy);
      file, lastKey, pendingIndexEntry, pendingHandle, blocks := [], [], false, Handle(0, 0), [];
    }

    /** Writes a block's contents and its trailer. */
    method WriteRawBlock(contents: Bytes) returns (handle: Handle, ghost trailer: Bytes)
      modifies this`file
      ensures handle == Handle(|old(file)|, |contents|) && file == old(file) + contents + trailer
    {
      handle := Handle(|file|, |contents|);
      var t := [0] + Fixed32(Mask(crc(contents + [0])));
      file := file + contents;
      file := file + t;
      trailer := t;
    }
  
    /** There is room for another pair in blocks of 32-bit offsets. */
    predicate RoomFor(key: Bytes, value: Bytes)
      reads this, dataBlock, indexBlock
    {
      && |dataBlock.buffer| + |key| + |value| + 15 < TWO_32 && |indexBlock.buffer| + |lastKey| + 35 < TWO_32
      && |file| < LARGE
    }

    /** The index entry of the last block, now that the key behind it is known. */
    method AddPendingEntry(key: Bytes, ghost value: Bytes)
      requires DataOk() && pendingIndexEntry && RoomFor(key, []) && keys.less(lastKey, key)
      modifies this`pendingIndexEntry, indexBlock
      ensures !pendingIndexEntry && indexBlock.Valid()
      ensures IndexSoFar(keys, blocks, indexBlock.layout.es, false)
      ensures Junction(keys, blocks, indexBlock.layout.es, [Pair(key, value)], false, key, pendingHandle)
    {
      var s := keys.separator(lastKey, key);
      PendingSettled(keys, file, blocks, indexBlock.layout.es, dataBlock.layout.es, lastKey, pendingHandle, Pair(key, value));
      indexBlock.Add(s, EncodeHandle(pendingHandle));
      pendingIndexEntry := false;
    }

    /** The filter hears of the key, at the offset where the open block will be. */
    method TellFilter(key: Bytes, ghost value: Bytes)
      requires filterBlock.Valid()
      requires hasFilter ==> filterBlock.open == |file| && Told(keys, filterBlock.added, blocks, dataBlock.layout.es, |file|)
      modifies filterBlock
      ensures filterBlock.Valid()
      ensures hasFilter ==> filterBlock.open == |file|
      ensures hasFilter ==> Told(keys, filterBlock.added, blocks, dataBlock.layout.es + [Pair(key, value)], |file|)
    {
      if hasFilter {
        filterBlock.AddKey(FilterKey(keys, key));
      }
    }

    /** Gives the last block its index entry if that is still due. */
    method SettleIndex(key: Bytes, ghost value: Bytes) returns (ghost wasPending: bool)
      requires DataOk() && RoomFor(key, []) && (All() != [] ==> keys.less(All()[|All()| - 1].key, key))
      modifies this`pendingIndexEntry, indexBlock
      ensures !pendingIndexEntry && indexBlock.Valid()
      ensures IndexSoFar(keys, blocks, indexBlock.layout.es, false)
      ensures dataBlock.layout.es != [] ==> keys.less(LastKey(dataBlock.layout.es), key)
      ensures Ascending(keys.less, Flat(blocks) + (dataBlock.layout.es + [Pair(key, value)]))
      ensures Flat(blocks) + (dataBlock.layout.es + [Pair(key, value)]) == All() + [Pair(key, value)]
      ensures wasPending ==> dataBlock.layout.es == []
      ensures wasPending ==> Junction(keys, blocks, indexBlock.layout.es, [Pair(key, value)], false, key, pendingHandle)
      ensures !wasPending ==> Junction(keys, blocks, indexBlock.layout.es, dataBlock.layout.es, false, lastKey, pendingHandle)
    {
      LastOfAll(keys, blocks, indexBlock.layout.es, dataBlock.layout.es, pendingIndexEntry, lastKey, pendingHandle);
      AllGrows(keys.less, Flat(blocks), dataBlock.layout.es, Pair(key, value));
      wasPending := pendingIndexEntry;
      if pendingIndexEntry {
        AddPendingEntry(key, value);
      }
    }

    method AddPair(key: Bytes, value: Bytes)
      requires Valid() && RoomFor(key, value) && (All() != [] ==> keys.less(All()[|All()| - 1].key, key))
      modifies this`pendingIndexEntry, this`lastKey, indexBlock, dataBlock, filterBlock
      ensures Valid() && All() == old(All()) + [Pair(key, value)] && dataBlock.layout.es != []
    {
      ghost var wasPending := SettleIndex(key, value);
      TellFilter(key, value);
      AppendPair(key, value, wasPending);
    }

    /** The pair goes into the open block; every earlier block has its index entry. */
    method AppendPair(key: Bytes, value: Bytes, ghost wasPending: bool)
      requires dataBlock != indexBlock && Suitable(keys) && dataBlock.less == keys.less && indexBlock.less == keys.less
      requires dataBlock.Valid() && indexBlock.Valid() && BlocksIn(file, blocks)
      requires |dataBlock.buffer| + |key| + |value| + 15 < TWO_32
      requires Ascending(keys.less, Flat(blocks) + (dataBlock.layout.es + [Pair(key, value)]))
      requires dataBlock.layout.es != [] ==> keys.less(LastKey(dataBlock.layout.es), key)
      requires !pendingIndexEntry && IndexSoFar(keys, blocks, indexBlock.layout.es, false)
      requires wasPending ==> dataBlock.layout.es == []
      requires wasPending ==> Junction(keys, blocks, indexBlock.layout.es, [Pair(key, value)], false, key, pendingHandle)
      requires !wasPending ==> Junction(keys, blocks, indexBlock.layout.es, dataBlock.layout.es, false, lastKey, pendingHandle)
      requires filterBlock.Valid() && filterBlock.policy == policy
      requires hasFilter ==> filterBlock.open == |file|
      requires hasFilter ==> Told(keys, filterBlock.added, blocks, dataBlock.layout.es + [Pair(key, value)], |file|)
      modifies this`lastKey, dataBlock
      ensures Valid() && All() == old(Flat(blocks) + (dataBlock.layout.es + [Pair(key, value)]))
      ensures dataBlock.layout.es != []
    {
      ghost var index, before := indexBlock.layout.es, dataBlock.layout.es;
      MovesOn(keys, blocks, index, before, Pair(key, value), wasPending, lastKey, pendingHandle);
      lastKey := key;
      dataBlock.Add(key, value);
    }

    /** Writes the pairs since the last block as a block; its index entry stays pending. */
    method Flush()
      requires Valid() && |file| < LARGE
      modifies this`file, this`pendingIndexEntry, this`pendingHandle, this`blocks, dataBlock, filterBlock
      ensures Valid() && All() == old(All()) && dataBlock.layout.es == []
      ensures lastKey == old(lastKey) && indexBlock.layout == old(indexBlock.layout)
    {
      BufferEmpty(dataBlock.buffer, dataBlock.layout);
      if dataBlock.buffer == [] {
        return;
      }
      ghost var before, es, offset := blocks, dataBlock.layout.es, |file|;
      ghost var b := WriteDataBlock();
      if hasFilter {
        ToldAtFlush(keys, filterBlock.added, before, es, offset, b, |file|);
        filterBlock.StartBlock(|file|);
      }
    }

    /** The open block, not empty, is written and starts over. */
    method WriteDataBlock() returns (ghost b: DataBlock)
      requires DataOk() && |file| < LARGE && dataBlock.layout.es != []
      modifies this`file, this`pendingIndexEntry, this`pendingHandle, this`blocks, dataBlock
      ensures DataOk() && All() == old(All()) && dataBlock.layout.es == []
      ensures blocks == old(blocks) + [b] && b.handle.offset == |old(file)| && b.layout.es == old(dataBlock.layout.es)
      ensures |file| >= |old(file)|
    {
      ghost var l := dataBlock.layout;
      var contents := dataBlock.Finish();
      b := DataBlock(Handle(|file|, |contents|), |dataBlock.buffer|, |dataBlock.restarts|, l);
      ghost var before, handle := file, pendingHandle;
      ghost var trailer;
      pendingHandle, trailer := WriteRawBlock(contents);
      assert !pendingIndexEntry;
      TableAtFlush(keys, before, blocks, indexBlock.layout.es, l.es, lastKey, handle, b, contents, trailer);
      dataBlock.Reset();
      pendingIndexEntry := true;
      blocks := blocks + [b];
    }

    /** Adds a pair behind all others; a full block is written out. */
    method Add(key: Bytes, value: Bytes)
      requires Valid() && RoomFor(key, value) && (All() != [] ==> keys.less(All()[|All()| - 1].key, key))
      modifies this, indexBlock, dataBlock, filterBlock
      ensures Valid() && All() == old(All()) + [Pair(key, value)]
    {
      AddPair(key, value);
      if dataBlock.CurrentSizeEstimate() >= blockSize {
        Flush();
      }
    }

    /** The last index entry: a short key behind the last one. */
    method AddLastEntry()
      requires DataOk() && pendingIndexEntry && |indexBlock.buffer| + |lastKey| + 35 < TWO_32
      modifies this`pendingIndexEntry, indexBlock
      ensures indexBlock.Valid() && Indexed(keys, blocks, indexBlock.layout.es)
    {
      var s := keys.successor(lastKey);
      assert Flat(blocks) + [] == Flat(blocks);
      assert blocks[|blocks| - 1] in blocks;
      LastEntry(keys, blocks, indexBlock.layout.es, lastKey, pendingHandle, s);
      indexBlock.Add(s, EncodeHandle(pendingHandle));
      pendingIndexEntry := false;
    }

    /** The filter of a finished table, for filters that fit 32-bit offsets. */
    method FinishFilter() returns (filter: Option<Bytes>)
      requires FilterOk() && dataBlock.layout.es == []
      modifies filterBlock
      ensures filter.Some? <==> hasFilter
      ensures filter.Some? && Sound(policy) && |filter.value| < TWO_32 ==> Filtered(keys, policy, filter.value, blocks)
    {
      filter := None;
      if hasFilter {
        ghost var added := filterBlock.added;
        var contents := filterBlock.Finish();
        filter := Some(contents);
        if Sound(policy) && |contents| < TWO_32 {
          AllMatch(keys, policy, filterBlock.groups, added, blocks);
        }
      }
    }

    /** Writes raw contents behind the blocks. */
    method WriteBehind(contents: Bytes) returns (handle: Handle)
      requires BlocksIn(file, blocks)
      modifies this`file
      ensures BlocksIn(file, blocks) && handle.offset + handle.size <= |file| && Slice(file, handle) == contents
    {
      ghost var before := file;
      ghost var trailer;
      handle, trailer := WriteRawBlock(contents);
      BlocksStayIn(before, contents + trailer, blocks);
      Associate(before, contents, trailer);
    }

    /** Completes the index once the last block has been written. */
    method CompleteIndex()
      requires DataOk() && dataBlock.layout.es == [] && |indexBlock.buffer| + |lastKey| + 35 < TWO_32
      modifies this`pendingIndexEntry, indexBlock
      ensures indexBlock.Valid() && Indexed(keys, blocks, indexBlock.layout.es)
    {
      assert Flat(blocks) + [] == Flat(blocks);
      if pendingIndexEntry {
        AddLastEntry();
      }
    }

    /** Writes filter and index behind the blocks. */
    method WriteTail(filter: Option<Bytes>) returns (t: Table, ghost index: DataBlock)
      requires BlocksIn(file, blocks) && indexBlock.Valid() && Indexed(keys, blocks, indexBlock.layout.es)
      requires Suitable(keys) && indexBlock.less == keys.less
      modifies this`file
      ensures t.filter == filter
      ensures Sound(policy) && (filter.Some? ==> Filtered(keys, policy, filter.value, blocks)) ==> TableOk(keys, policy, t, blocks, index)
    {
      if filter.Some? {
        var _ := WriteBehind(filter.value);
      }
      var contents := indexBlock.Finish();
      var handle := WriteBehind(contents);
      index := DataBlock(handle, |indexBlock.buffer|, |indexBlock.restarts|, indexBlock.layout);
      t := Table(file, handle, filter);
    }

    /** Ends the table: the last block, the filter, the index. */
    method Finish() returns (t: Table, ghost index: DataBlock)
      requires Valid() && |file| < LARGE && |indexBlock.buffer| + |lastKey| + 35 < TWO_32
      modifies this, indexBlock, dataBlock, filterBlock
      ensures Flat(blocks) == old(All()) && (t.filter.Some? <==> hasFilter)
      ensures Sound(policy) && (t.filter.Some? ==> |t.filter.value| < TWO_32) ==> TableOk(keys, policy, t, blocks, index)
    {
      Flush();
      assert Flat(blocks) + [] == Flat(blocks);
      var filter := FinishFilter();
      CompleteIndex();
      t, index := WriteTail(filter);
    }
  }

  lemma AllGrows(less: Comparator, front: seq<Pair>, es: seq<Pair>, e: Pair)
    requires IsOrder(less) && Ascending(less, front + es)
    requires front + es != [] ==> less((front + es)[|front + es| - 1].key, e.key)
    ensures front + (es + [e]) == front + es + [e] && Ascending(less, front + (es + [e]))
    ensures es != [] ==> less(LastKey(es), e.key)
  {
    assert front + (es + [e]) == front + es + [e];
    AddedAscending(less, front + es, e);
  }

  /** The junction after another pair. */
  lemma MovesOn(keys: Keys, blocks: seq<DataBlock>, index: seq<Pair>, es: seq<Pair>, e: Pair, wasPending: bool,
                lastKey: Bytes, handle: Handle)
    requires NonEmpty(blocks) && IndexSoFar(keys, blocks, index, false) && (wasPending ==> es == [])
    requires wasPending ==> Junction(keys, blocks, index, [e], false, e.key, handle)
    requires !wasPending ==> Junction(keys, blocks, index, es, false, lastKey, handle)
    ensures Junction(keys, blocks, index, es + [e], false, e.key, handle)
  {
    if wasPending { assert es + [e] == [e]; }
  }

  lemma {:induction false} LastEntry(keys: Keys, blocks: seq<DataBlock>, index: seq<Pair>, lastKey: Bytes,
                                     handle: Handle, s: Bytes)
    requires NonEmpty(blocks) && IndexSoFar(keys, blocks, index, true)
    requires Junction(keys, blocks, index, [], true, lastKey, handle)
    requires Suitable(keys) && Ascending(keys.less, Flat(blocks)) && Encodable(handle) && s == keys.successor(lastKey)
    ensures Indexed(keys, blocks, index + [Pair(s, EncodeHandle(handle))])
    ensures index != [] ==> keys.less(index[|index| - 1].key, s)
    ensures |s| <= |lastKey| && |EncodeHandle(handle)| <= 20
  {
    FlatLast(blocks);
    assert Flat(blocks) + [] == Flat(blocks);
    AscendingTail(keys.less, Flat(blocks), blocks[|blocks| - 1].layout.es, []);
    EntriesAscend(keys, blocks, index, s);
    HandleIsShort(handle);
    IndexComplete(keys, blocks, index, Pair(s, EncodeHandle(handle)));
  }

  lemma BufferEmpty(buffer: Bytes, l: Layout)
    requires LaidOut(buffer, l)
    ensures buffer == [] <==> l.es == []
  {
    OffsetsGrow(buffer, l, |l.es|);
  }

  lemma {:induction false} IndexComplete(keys: Keys, blocks: seq<DataBlock>, index: seq<Pair>, e: Pair)
    requires NonEmpty(blocks) && IndexSoFar(keys, blocks, index, true) && blocks != []
    requires IsOrder(keys.less) && Ascending(keys.less, Flat(blocks))
    requires e.value == EncodeHandle(blocks[|blocks| - 1].handle) && !keys.less(e.key, Last(blocks[|blocks| - 1]))
    ensures Indexed(keys, blocks, index + [e])
  {
  }

  /** The filter a table was told all its keys matches all of them. */
  lemma AllMatch(keys: Keys, policy: Policy, groups: seq<seq<Bytes>>, added: seq<Added>, blocks: seq<DataBlock>)
    requires Sound(policy) && |Contents(policy, groups)| < TWO_32
    requires forall a :: a in added ==> Grouped(groups, a)
    requires forall b, e :: b in blocks && e in b.layout.es ==> Added(b.handle.offset, FilterKey(keys, e.key)) in added
    ensures Filtered(keys, policy, Contents(policy, groups), blocks)
  {
    forall b, e | b in blocks && e in b.layout.es
      ensures BlockMayMatch(policy, Contents(policy, groups), b.handle.offset, FilterKey(keys, e.key))
    {
      NoFalseNegatives(policy, groups, Added(b.handle.offset, FilterKey(keys, e.key)));
    }
  }

  lemma HandleIsShort(h: Handle)
    requires Encodable(h)
    ensures |EncodeHandle(h)| <= 20
  {
    assert Pow128(2) == 0x4000 && Pow128(4) == 128 * 128 * Pow128(2);
    assert Pow128(6) == 128 * 128 * Pow128(4) && Pow128(8) == 128 * 128 * Pow128(6) && Pow128(10) == 128 * 128 * Pow128(8);
    VarintBound(h.offset, 10);
    VarintBound(h.size, 10);
  }

  lemma {:induction false} FlatLast(blocks: seq<DataBlock>)
    requires blocks != []
    ensures Flat(blocks) == Flat(blocks[..|blocks| - 1]) + blocks[|blocks| - 1].layout.es
  {
  }

  lemma AscendingTail(less: Comparator, front: seq<Pair>, tail: seq<Pair>, rest: seq<Pair>)
    requires Ascending(less, front + rest) && |tail| <= |front| && front[|front| - |tail|..] == tail
    ensures Ascending(less, tail)
  {
    forall i, j | 0 <= i < j < |tail|
      ensures less(tail[i].key, tail[j].key)
    {
      var from := |front| - |tail|;
      assert tail[i] == (front + rest)[from + i] && tail[j] == (front + rest)[from + j];
    }
  }

  /** The last key kept is that of the last pair added. */
  lemma {:induction false} LastOfAll(keys: Keys, blocks: seq<DataBlock>, index: seq<Pair>, es: seq<Pair>, pending: bool,
                                     lastKey: Bytes, handle: Handle)
    requires NonEmpty(blocks) && IndexSoFar(keys, blocks, index, pending)
    requires Junction(keys, blocks, index, es, pending, lastKey, handle)
    ensures var all := Flat(blocks) + es;
            && (all == [] <==> blocks == [] && es == [])
            && (all != [] ==> lastKey == all[|all| - 1].key)
  {
    if blocks != [] { FlatLast(blocks); }
  }
}
