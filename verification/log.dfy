/** The log file: records split into checksummed fragments over 32 KB blocks, and the reader
    that puts them together again from a file that may have been cut off anywhere. */
module LogFile {
  import opened Format
  import opened Coding

  const BLOCK: nat := 32768
  const HEADER: nat := 7

  const FULL: byte := 1
  const FIRST: byte := 2
  const MIDDLE: byte := 3
  const LAST: byte := 4

  type Crc = Bytes -> word

  /** One fragment as it lies in the file: checksum, length, type, payload. */
  function Fragment(crc: Crc, kind: byte, data: Bytes): (r: Bytes)
    requires |data| < 0x1_0000
    ensures |r| == HEADER + |data|
  {
    Fixed32(Mask(crc([kind] + data))) + [|data| % 256, |data| / 256, kind] + data
  }

  function Zeros(n: nat): (r: Bytes)
    ensures |r| == n
  {
    seq(n, i => 0)
  }

  /** Bytes left in the block of file position p. */
  function Leftover(p: nat): (n: nat)
    ensures 0 < n <= BLOCK
  {
    BLOCK - p % BLOCK
  }

  function KindOf(begin: bool, end: bool): byte {
    if begin && end then FULL else if begin then FIRST else if end then LAST else MIDDLE
  }

  function Min(a: nat, b: nat): nat {
    if a < b then a else b
  }

  /** The place the next fragment starts: past the trailer when no header fits. */
  function FragmentStart(p: nat): nat {
    if Leftover(p) < HEADER then p + Leftover(p) else p
  }

  /** How much of the data the next fragment takes. */
  function Taken(p: nat, data: Bytes): (n: nat)
    ensures n <= |data| && n <= Leftover(FragmentStart(p)) - HEADER
  {
    Min(|data|, Leftover(FragmentStart(p)) - HEADER)
  }

  /** The trailer, if one is needed, and the next fragment. */
  function Piece(crc: Crc, p: nat, data: Bytes, begin: bool): (r: Bytes)
    ensures |r| == FragmentStart(p) - p + HEADER + Taken(p, data)
  {
    Zeros(FragmentStart(p) - p) + Fragment(crc, KindOf(begin, Taken(p, data) == |data|), data[..Taken(p, data)])
  }

  /** The bytes a record (or what is left of it) adds to a file of length p. */
  function Emit(crc: Crc, p: nat, data: Bytes, begin: bool): (r: Bytes)
    ensures |r| >= HEADER
    decreases |data|, if Leftover(p) == BLOCK then 0 else 1
  {
    var piece, n := Piece(crc, p, data, begin), Taken(p, data);
    if n == |data| then piece else piece + Emit(crc, p + |piece|, data[n..], false)
  }

  /** The file after a list of records has been added to an empty one. */
  function FileOf(crc: Crc, records: seq<Bytes>): Bytes {
    if records == [] then []
    else
      var front := FileOf(crc, records[..|records| - 1]);
      front + Emit(crc, |front|, records[|records| - 1], true)
  }

  class Writer {
    const crc: Crc
    var dest: Bytes          // the file so far
    var blockOffset: nat

    ghost predicate Valid()
      reads this
    {
      blockOffset <= BLOCK && blockOffset % BLOCK == |dest| % BLOCK
    }

    constructor (crc: Crc)
      ensures Valid() && dest == [] && this.crc == crc
    {
      this.crc := crc;
      dest := [];
      blockOffset := 0;
    }

    method EmitPhysicalRecord(kind: byte, data: Bytes)
      requires Valid() && blockOffset + HEADER + |data| <= BLOCK
      modifies this
      ensures Valid() && dest == old(dest) + Fragment(crc, kind, data)
      ensures blockOffset == old(blockOffset) + HEADER + |data|
    {
      var header := Fixed32(Mask(crc([kind] + data))) + [|data| % 256, |data| / 256, kind];
      dest := dest + header;
      dest := dest + data;
      blockOffset := blockOffset + HEADER + |data|;
      assert old(dest) + header + data == old(dest) + Fragment(crc, kind, data);
    }

    /** One round of the loop: a trailer when no header fits, then one fragment. */
    method AddFragment(left: Bytes, begin: bool) returns (length: nat)
      requires Valid()
      modifies this
      ensures Valid() && length == Taken(|old(dest)|, left)
      ensures dest == old(dest) + Piece(crc, |old(dest)|, left, begin)
    {
      AddTrailer();
      var avail := BLOCK - blockOffset - HEADER;
      length := if |left| < avail then |left| else avail;
      EmitPhysicalRecord(KindOf(begin, |left| == length), left[..length]);
    }

    method AddTrailer()
      requires Valid()
      modifies this
      ensures Valid() && blockOffset + HEADER <= BLOCK
      ensures dest == old(dest) + Zeros(FragmentStart(|old(dest)|) - |old(dest)|)
      ensures blockOffset == BLOCK - Leftover(FragmentStart(|old(dest)|))
    {
      var leftover := BLOCK - blockOffset;
      if leftover < HEADER {
        dest := dest + Zeros(leftover);
        blockOffset := 0;
      } else {
        assert dest + Zeros(0) == dest;
      }
    }

    method AddRecord(slice: Bytes)
      requires Valid()
      modifies this
      ensures Valid() && dest == old(dest) + Emit(crc, |old(dest)|, slice, true)
    {
      var left, begin, more := slice, true, true;
      ghost var goal := dest + Emit(crc, |dest|, slice, true);
      while more
        invariant Valid()
        invariant goal == if more then dest + Emit(crc, |dest|, left, begin) else dest
        decreases more, |left|, if Leftover(|dest|) == BLOCK then 0 else 1
      {
        EmitSplits(crc, dest, left, begin);
        var length := AddFragment(left, begin);
        more := length < |left|;
        left := left[length..];
        begin := false;
      }
    }
  }

  /** An empty fragment fills its block, so the one after it starts a new block. */
  lemma EmptyFragmentEndsBlock(p: nat, data: Bytes)
    requires Taken(p, data) == 0 && data != []
    ensures Leftover(p) != BLOCK && Leftover(FragmentStart(p) + HEADER) == BLOCK
  {
    assert FragmentStart(p) % BLOCK == BLOCK - HEADER;
  }

  /** One round of the writer's loop is one step of Emit. */
  lemma {:induction false} EmitSplits(crc: Crc, file: Bytes, left: Bytes, begin: bool)
    ensures var n, after := Taken(|file|, left), file + Piece(crc, |file|, left, begin);
            file + Emit(crc, |file|, left, begin) == if n == |left| then after else after + Emit(crc, |after|, left[n..], false)
    ensures Taken(|file|, left) == 0 && left != [] ==>
              Leftover(|file + Piece(crc, |file|, left, begin)|) == BLOCK && Leftover(|file|) != BLOCK
  {
    var n, piece := Taken(|file|, left), Piece(crc, |file|, left, begin);
    if n < |left| {
      Associate(file, piece, Emit(crc, |file| + |piece|, left[n..], false));
      if n == 0 { EmptyFragmentEndsBlock(|file|, left); }
    }
  }

  /** What the reader finds at a file position: a fragment, the end, or bytes it cannot use. */
  datatype Physical =
    | Found(kind: byte, data: Bytes, next: nat)
    | Eof
    | Bad(next: nat, reported: Option<nat>)

  /** What lies at position p of file c, read block by block. */
  function PhysicalAt(crc: Crc, c: Bytes, p: nat): (r: Physical)
    requires p <= |c|
    ensures r.Found? ==> p < r.next <= |c|
    ensures r.Bad? ==> p < r.next <= |c|
    decreases |c| - p
  {
    var blockEnd := p + Leftover(p);
    var full := blockEnd <= |c|;                       // the block was read whole
    var limit := if full then blockEnd else |c|;       // the end of the buffer
    if limit - p < HEADER then
      if full then PhysicalAt(crc, c, blockEnd) else Eof
    else Parse(crc, c[p..limit], p, full)
  }

  /** Reads the fragment at the front of the buffer, which starts at file position p. */
  function Parse(crc: Crc, buffer: Bytes, p: nat, full: bool): (r: Physical)
    requires |buffer| >= HEADER
    ensures r.Found? ==> p < r.next <= p + |buffer|
    ensures r.Bad? ==> p < r.next <= p + |buffer|
  {
    var length: nat := buffer[4] as nat + 256 * buffer[5] as nat;
    var kind := buffer[6];
    if HEADER + length > |buffer| then
      if full then Bad(p + |buffer|, Some(|buffer|)) else Eof
    else if kind == 0 && length == 0 then Bad(p + |buffer|, None)
    else if Unmask(Unfixed(buffer[..4]) % TWO_32) != crc(buffer[6..HEADER + length]) then
      Bad(p + |buffer|, Some(|buffer|))
    else Found(kind, buffer[HEADER..HEADER + length], p + HEADER + length)
  }

  /** What one call of the reader yields: a record or none, where it stops, and the sizes of
      the drops it reports. */
  datatype Reading = Reading(record: Option<Bytes>, next: nat, reports: seq<nat>) {
    function After(first: seq<nat>): Reading {
      Reading(record, next, first + reports)
    }
  }

  /** What one fragment does to a record being put together. */
  datatype Step =
    | Done(record: Option<Bytes>)
    | Continue(next: nat, inFragment: bool, scratch: Bytes)

  /** One round of the reader's loop: what happens, and the sizes it reports as dropped. */
  function Advance(found: Physical, inFragment: bool, scratch: Bytes): (Step, seq<nat>) {
    var dropped := if inFragment && scratch != [] then [|scratch|] else [];
    match found
    case Eof => (Done(None), [])
    case Bad(next, reported) =>
      (Continue(next, false, []), Reported(found) + if inFragment then [|scratch|] else [])
    case Found(kind, data, next) =>
      if kind == FULL then (Done(Some(data)), dropped)
      else if kind == FIRST then (Continue(next, true, data), dropped)
      else if kind == MIDDLE then
        if inFragment then (Continue(next, true, scratch + data), []) else (Continue(next, false, scratch), [|data|])
      else if kind == LAST then
        if inFragment then (Done(Some(scratch + data)), []) else (Continue(next, false, scratch), [|data|])
      else (Continue(next, false, []), [|data| + if inFragment then |scratch| else 0])
  }

  /** The drop the reader reports as it finds bytes it cannot use. */
  function Reported(found: Physical): seq<nat> {
    if found.Bad? && found.reported.Some? then [found.reported.value] else []
  }

  function PlaceAfter(found: Physical, end: nat): nat {
    if found.Eof? then end else found.next
  }

  /** Reads fragments from p on until a record is whole or the file ends. */
  function RecordAt(crc: Crc, c: Bytes, p: nat, inFragment: bool, scratch: Bytes): (r: Reading)
    requires p <= |c|
    ensures p <= r.next <= |c| && (r.record.Some? ==> p < r.next)
    decreases |c| - p
  {
    var found := PhysicalAt(crc, c, p);
    var (step, reports) := Advance(found, inFragment, scratch);
    match step
    case Done(record) => Reading(record, PlaceAfter(found, |c|), reports)
    case Continue(next, inFragment, scratch) => RecordAt(crc, c, next, inFragment, scratch).After(reports)
  }

  /** What the reader holds: the file from its position to filePos, which is the end of the
      position's block or, after a short read, of the file. */
  ghost predicate Buffered(file: Bytes, filePos: nat, buffer: Bytes, eof: bool) {
    && |buffer| <= filePos <= |file| && buffer == file[filePos - |buffer|..filePos]
    && (!eof ==> filePos % BLOCK == 0 && |buffer| <= BLOCK)
    && (eof ==> filePos == |file| && |buffer| < Leftover(filePos - |buffer|))
  }

  lemma BlockEnd(p: nat, filePos: nat)
    requires p < filePos <= p + BLOCK && filePos % BLOCK == 0
    ensures p + Leftover(p) == filePos
  {
  }

  lemma ShrinkBuffer(file: Bytes, filePos: nat, buffer: Bytes, eof: bool, n: nat)
    requires Buffered(file, filePos, buffer, eof) && n <= |buffer|
    ensures Buffered(file, filePos, buffer[n..], eof)
  {
    var p := filePos - |buffer|;
    if eof { SameBlock(p, p + n); }
  }

  lemma SameBlock(p: nat, q: nat)
    requires p <= q < p + Leftover(p)
    ensures q + Leftover(q) == p + Leftover(p)
  {
  }

  /** A buffer too short for a header: the reader goes on behind it, or is at the end. */
  lemma {:induction false} ShortBuffer(crc: Crc, file: Bytes, filePos: nat, buffer: Bytes, eof: bool)
    requires Buffered(file, filePos, buffer, eof) && |buffer| < HEADER
    ensures PhysicalAt(crc, file, filePos - |buffer|) == if eof then Eof else PhysicalAt(crc, file, filePos)
  {
    if !eof && buffer != [] { BlockEnd(filePos - |buffer|, filePos); }
  }

  /** Any other buffer holds all there is to parse. */
  lemma {:induction false} LongBuffer(crc: Crc, file: Bytes, filePos: nat, buffer: Bytes, eof: bool)
    requires Buffered(file, filePos, buffer, eof) && |buffer| >= HEADER
    ensures PhysicalAt(crc, file, filePos - |buffer|) == Parse(crc, buffer, filePos - |buffer|, !eof)
  {
    if !eof { BlockEnd(filePos - |buffer|, filePos); }
  }

  class Reader {
    const crc: Crc
    const file: Bytes
    var filePos: nat         // how much of the file has been read
    var buffer: Bytes        // the part read and not yet used
    var eof: bool            // the last read was short
    var reports: seq<nat>    // sizes handed to the reporter

    function Position(): nat
      requires |buffer| <= filePos
      reads this
    {
      filePos - |buffer|
    }

    ghost predicate Valid()
      reads this
    {
      Buffered(file, filePos, buffer, eof)
    }

    constructor (crc: Crc, file: Bytes)
      ensures Valid() && Position() == 0 && reports == []
      ensures this.crc == crc && this.file == file
    {
      this.crc := crc;
      this.file := file;
      filePos, buffer, eof, reports := 0, [], false, [];
    }

    /** Reads the next block into the empty buffer. */
    method ReadBlock()
      requires Valid() && buffer == [] && !eof
      modifies this
      ensures Valid() && Position() == old(Position()) && reports == old(reports)
      ensures filePos > old(filePos) || (eof && filePos == old(filePos))
    {
      var n := if |file| - filePos < BLOCK then |file| - filePos else BLOCK;
      buffer := file[filePos..filePos + n];
      filePos := filePos + n;
      eof := n < BLOCK;
    }

    /** Drops n bytes of the buffer. */
    method Drop(n: nat)
      requires Valid() && n <= |buffer|
      modifies this`buffer
      ensures Valid() && buffer == old(buffer)[n..]
    {
      ShrinkBuffer(file, filePos, buffer, eof, n);
      buffer := buffer[n..];
    }

    /** Drops a buffer too short for a header and reads the next block, if there is one. */
    method Refill() returns (more: bool)
      requires Valid() && |buffer| < HEADER
      modifies this
      ensures Valid() && reports == old(reports) && more == !old(eof)
      ensures !more ==> eof
      ensures more ==> filePos > old(filePos) || (eof && filePos == old(filePos))
      ensures PhysicalAt(crc, file, old(Position())) == if more then PhysicalAt(crc, file, Position()) else Eof
    {
      ShortBuffer(crc, file, filePos, buffer, eof);
      Drop(|buffer|);
      more := !eof;
      if more { ReadBlock(); }
    }

    /** What lies at the front of the buffer; reads on until there is room for a header. */
    method NextHeader() returns (found: Physical)
      requires Valid()
      modifies this
      ensures Valid() && reports == old(reports) && found == PhysicalAt(crc, file, old(Position()))
      ensures match found
              case Eof => eof
              case Bad(next, _) => next == filePos
              case Found(_, _, next) => Position() < next <= filePos
    {
      ghost var goal := PhysicalAt(crc, file, Position());
      while |buffer| < HEADER
        invariant Valid() && reports == old(reports)
        invariant PhysicalAt(crc, file, Position()) == goal
        decreases |file| - filePos, !eof
      {
        var more := Refill();
        if !more {
          return Eof;
        }
      }
      LongBuffer(crc, file, filePos, buffer, eof);
      found := Parse(crc, buffer, Position(), !eof);
    }

    method ReadPhysicalRecord() returns (found: Physical)
      requires Valid()
      modifies this
      ensures Valid() && found == PhysicalAt(crc, file, old(Position()))
      ensures Position() == PlaceAfter(found, |file|)
      ensures reports == old(reports) + Reported(found)
    {
      found := NextHeader();
      match found
      case Eof =>
        Drop(|buffer|);
      case Bad(_, reported) =>
        if reported.Some? { reports := reports + [reported.value]; }
        Drop(|buffer|);
      case Found(_, _, next) =>
        Drop(next - Position());
    }

    /** One round of `ReadRecord`: reads a fragment and decides what it means. */
    method ReadFragment(inFragment: bool, scratch: Bytes) returns (step: Step)
      requires Valid() && (!inFragment ==> scratch == [])
      modifies this
      ensures Valid() && (step.Continue? && !step.inFragment ==> step.scratch == [])
      ensures var found := PhysicalAt(crc, file, old(Position()));
              && Position() == PlaceAfter(found, |file|)
              && step == Advance(found, inFragment, scratch).0
              && reports == old(reports) + Advance(found, inFragment, scratch).1
    {
      var found := ReadPhysicalRecord();
      match found
      case Eof =>
        step := Done(None);
      case Bad(_, _) =>
        if inFragment { reports := reports + [|scratch|]; }
        step := Continue(Position(), false, []);
      case Found(kind, data, _) =>
        if kind == FULL {
          if inFragment && scratch != [] { reports := reports + [|scratch|]; }
          step := Done(Some(data));
        } else if kind == FIRST {
          if inFragment && scratch != [] { reports := reports + [|scratch|]; }
          step := Continue(Position(), true, data);
        } else if kind == MIDDLE {
          if !inFragment {
            reports := reports + [|data|];
            step := Continue(Position(), false, scratch);
          } else {
            step := Continue(Position(), true, scratch + data);
          }
        } else if kind == LAST {
          if !inFragment {
            reports := reports + [|data|];
            step := Continue(Position(), false, scratch);
          } else {
            step := Done(Some(scratch + data));
          }
        } else {
          reports := reports + [|data| + if inFragment then |scratch| else 0];
          step := Continue(Position(), false, []);
        }
    }

    /** Reads the next record; None at the end of the file. */
    method ReadRecord() returns (record: Option<Bytes>)
      requires Valid()
      modifies this
      ensures Valid()
      ensures var r := RecordAt(crc, file, old(Position()), false, []);
              record == r.record && Position() == r.next && reports == old(reports) + r.reports
    {
      var scratch, inFragment := [], false;
      ghost var goal := RecordAt(crc, file, Position(), false, []).After(reports);
      while true
        invariant Valid() && (!inFragment ==> scratch == [])
        invariant goal == RecordAt(crc, file, Position(), inFragment, scratch).After(reports)
        decreases |file| - Position()
      {
        ghost var before := reports;
        RecordStep(crc, file, Position(), inFragment, scratch, before);
        var step := ReadFragment(inFragment, scratch);
        match step
        case Done(r) =>
          return r;
        case Continue(_, nowIn, nowScratch) =>
          inFragment, scratch := nowIn, nowScratch;
      }
    }
  }

  /** Reading on from p, with what was reported so far in front. */
  lemma {:induction false} RecordStep(crc: Crc, c: Bytes, p: nat, inFragment: bool, scratch: Bytes, before: seq<nat>)
    requires p <= |c|
    ensures var found := PhysicalAt(crc, c, p);
            var (step, reports) := Advance(found, inFragment, scratch);
            RecordAt(crc, c, p, inFragment, scratch).After(before) ==
              match step
              case Done(record) => Reading(record, PlaceAfter(found, |c|), before + reports)
              case Continue(next, inFragment, scratch) =>
                RecordAt(crc, c, next, inFragment, scratch).After(before + reports)
  {
    var (step, reports) := Advance(PhysicalAt(crc, c, p), inFragment, scratch);
    if step.Continue? {
      var rest := RecordAt(crc, c, step.next, step.inFragment, step.scratch).reports;
      assert before + (reports + rest) == before + reports + rest;
    }
  }
}
