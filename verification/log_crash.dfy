/** A log cut at any byte: the reader returns exactly the records wholly inside the cut. */
module LogCrash {
  import opened Format
  import opened Coding
  import opened LogFile

  /** The bytes `piece` lie in f at position p. */
  ghost predicate LiesAt(f: Bytes, p: nat, piece: Bytes) {
    p + |piece| <= |f| && f[p..p + |piece|] == piece
  }

  lemma LiesSplit(f: Bytes, p: nat, a: Bytes, b: Bytes)
    requires LiesAt(f, p, a + b)
    ensures LiesAt(f, p, a) && LiesAt(f, p + |a|, b)
  {
    var whole := f[p..p + |a + b|];
    assert whole[..|a|] == a && whole[|a|..] == b;
    assert f[p..p + |a|] == whole[..|a|];
    assert f[p + |a|..p + |a| + |b|] == whole[|a|..];
  }

  lemma LiesInPrefix(f: Bytes, c: Bytes, p: nat, piece: Bytes)
    requires LiesAt(f, p, piece) && c <= f && p + |piece| <= |c|
    ensures LiesAt(c, p, piece)
  {
    assert c[p..p + |piece|] == f[p..p + |piece|];
  }

  /** Where the parts of a fragment lie. */
  lemma FragmentFields(crc: Crc, kind: byte, data: Bytes)
    requires |data| < 0x1_0000
    ensures var frag := Fragment(crc, kind, data);
            && frag[..4] == Fixed32(Mask(crc([kind] + data)))
            && frag[4] == |data| % 256 && frag[5] == |data| / 256 && frag[6] == kind
            && frag[6..] == [kind] + data && frag[HEADER..] == data
  {
  }

  lemma ChecksumKept(sum: word)
    ensures Unmask(Unfixed(Fixed32(Mask(sum))) % TWO_32) == sum
  {
    Fixed32RoundTrip(Mask(sum));
    MaskRoundTrip(sum);
    WordKept(Mask(sum));
  }

  lemma WordKept(w: word)
    ensures w % TWO_32 == w
  {
  }

  lemma SliceOfPrefix(buffer: Bytes, front: Bytes, lo: nat, hi: nat)
    requires lo <= hi <= |front| <= |buffer| && buffer[..|front|] == front
    ensures buffer[lo..hi] == front[lo..hi]
    ensures forall i :: 0 <= i < |front| ==> buffer[i] == front[i]
  {
    assert forall i :: 0 <= i < |front| ==> buffer[i] == buffer[..|front|][i];
  }

  /** A whole fragment parses to itself. */
  lemma FragmentParses(crc: Crc, buffer: Bytes, p: nat, full: bool, kind: byte, data: Bytes)
    requires kind != 0 && |data| < 0x1_0000
    requires |buffer| >= HEADER + |data| && buffer[..HEADER + |data|] == Fragment(crc, kind, data)
    ensures Parse(crc, buffer, p, full) == Found(kind, data, p + HEADER + |data|)
  {
    var frag, n := Fragment(crc, kind, data), HEADER + |data|;
    FragmentFields(crc, kind, data);
    ChecksumKept(crc([kind] + data));
    SliceOfPrefix(buffer, frag, 0, 4);
    SliceOfPrefix(buffer, frag, 6, n);
    SliceOfPrefix(buffer, frag, HEADER, n);
  }

  lemma {:induction false} FragmentFound(crc: Crc, c: Bytes, p: nat, kind: byte, data: Bytes)
    requires kind != 0 && HEADER + |data| <= Leftover(p)
    requires LiesAt(c, p, Fragment(crc, kind, data))
    ensures PhysicalAt(crc, c, p) == Found(kind, data, p + HEADER + |data|)
  {
    var blockEnd := p + Leftover(p);
    var limit := if blockEnd <= |c| then blockEnd else |c|;
    assert c[p..limit][..HEADER + |data|] == c[p..p + HEADER + |data|];
    FragmentParses(crc, c[p..limit], p, blockEnd <= |c|, kind, data);
  }

  /** A fragment cut short is the end of the file, not a corruption. */
  lemma {:induction false} FragmentCut(crc: Crc, f: Bytes, c: Bytes, p: nat, kind: byte, data: Bytes)
    requires HEADER + |data| <= Leftover(p)
    requires LiesAt(f, p, Fragment(crc, kind, data)) && c <= f && p <= |c| < p + HEADER + |data|
    ensures PhysicalAt(crc, c, p) == Eof
  {
    if |c| - p >= HEADER {
      var buffer := c[p..];
      var frag := Fragment(crc, kind, data);
      assert forall i :: 0 <= i < |buffer| ==> buffer[i] == f[p + i] == frag[i];
      assert buffer[4] == |data| % 256 && buffer[5] == |data| / 256;
    }
  }

  lemma {:induction false} TrailerSkipped(crc: Crc, c: Bytes, p: nat)
    requires p <= |c|
    ensures FragmentStart(p) <= |c| ==> PhysicalAt(crc, c, p) == PhysicalAt(crc, c, FragmentStart(p))
    ensures FragmentStart(p) > |c| ==> PhysicalAt(crc, c, p) == Eof
  {
  }

  /** The next piece of a record, read from a file that holds it whole or in part. */
  lemma {:induction false} PieceRead(crc: Crc, f: Bytes, c: Bytes, p: nat, data: Bytes, begin: bool)
    requires LiesAt(f, p, Piece(crc, p, data, begin)) && c <= f && p <= |c|
    ensures var n := Taken(p, data); var end := p + |Piece(crc, p, data, begin)|;
            PhysicalAt(crc, c, p) == if end <= |c| then Found(KindOf(begin, n == |data|), data[..n], end) else Eof
  {
    var q, n := FragmentStart(p), Taken(p, data);
    var kind, part := KindOf(begin, n == |data|), data[..n];
    TrailerSkipped(crc, c, p);
    LiesSplit(f, p, Zeros(q - p), Fragment(crc, kind, part));
    if q <= |c| {
      if q + HEADER + n <= |c| {
        LiesInPrefix(f, c, q, Fragment(crc, kind, part));
        FragmentFound(crc, c, q, kind, part);
      } else {
        FragmentCut(crc, f, c, q, kind, part);
      }
    }
  }

  /** A fragment that completes a record completes the read. */
  lemma {:induction false} EndRead(crc: Crc, c: Bytes, p: nat, begin: bool, scratch: Bytes, data: Bytes, end: nat)
    requires p <= |c| && PhysicalAt(crc, c, p) == Found(KindOf(begin, true), data, end)
    requires begin ==> scratch == []
    ensures RecordAt(crc, c, p, !begin, scratch) == Reading(Some(scratch + data), end, [])
  {
    assert begin ==> scratch + data == data;
  }

  /** A fragment that does not leaves the rest of the record to be read after it. */
  lemma {:induction false} PartRead(crc: Crc, c: Bytes, p: nat, begin: bool, scratch: Bytes, data: Bytes, end: nat)
    requires p <= |c| && PhysicalAt(crc, c, p) == Found(KindOf(begin, false), data, end)
    requires begin ==> scratch == []
    ensures RecordAt(crc, c, p, !begin, scratch) == RecordAt(crc, c, end, true, scratch + data)
  {
    assert begin ==> scratch + data == data;
    RecordStep(crc, c, p, !begin, scratch, []);
    NoReportsAdded(RecordAt(crc, c, p, !begin, scratch));
    NoReportsAdded(RecordAt(crc, c, end, true, scratch + data));
  }

  lemma NoReportsAdded(r: Reading)
    ensures r.After([]) == r
  {
  }

  lemma {:induction false} EofRead(crc: Crc, c: Bytes, p: nat, inFragment: bool, scratch: Bytes)
    requires p <= |c| && PhysicalAt(crc, c, p) == Eof
    ensures RecordAt(crc, c, p, inFragment, scratch) == Reading(None, |c|, [])
  {
  }

  /** How Emit goes on after its first piece. */
  lemma {:induction false} EmitUnfolds(crc: Crc, p: nat, data: Bytes, begin: bool)
    ensures var n, piece := Taken(p, data), Piece(crc, p, data, begin);
            Emit(crc, p, data, begin) == if n == |data| then piece else piece + Emit(crc, p + |piece|, data[n..], false)
  {
  }

  /** What the reader makes of the record whose bytes are at p, up to `end`, in a file cut to c. */
  ghost predicate ReadBack(crc: Crc, c: Bytes, p: nat, begin: bool, scratch: Bytes, whole: Bytes, end: nat)
    requires p <= |c|
  {
    RecordAt(crc, c, p, !begin, scratch) ==
      if end <= |c| then Reading(Some(whole), end, []) else Reading(None, |c|, [])
  }

  /** A record the file holds whole is read back; one cut anywhere is dropped in silence. */
  lemma {:induction false} EmitIsRead(crc: Crc, f: Bytes, c: Bytes, p: nat, data: Bytes, begin: bool, scratch: Bytes,
                                      end: nat)
    requires LiesAt(f, p, Emit(crc, p, data, begin)) && c <= f && p <= |c| && end == p + |Emit(crc, p, data, begin)|
    requires begin ==> scratch == []
    ensures ReadBack(crc, c, p, begin, scratch, scratch + data, end)
    decreases |data|, if Leftover(p) == BLOCK then 0 else 1
  {
    var n, q := Taken(p, data), p + |Piece(crc, p, data, begin)|;
    PieceLies(crc, f, p, data, begin, n, q, end);
    if q > |c| || n == |data| {
      LastPieceIsRead(crc, f, c, p, data, begin, scratch, end);
    } else {
      EmptyPieceEndsBlock(crc, p, data, begin, n, q);
      FirstPieceIsRead(crc, f, c, p, data, begin, scratch, n, q);
      EmitIsRead(crc, f, c, q, data[n..], false, scratch + data[..n], end);
      ReadOn(crc, c, p, begin, scratch, data, n, q, end);
    }
  }

  lemma EmptyPieceEndsBlock(crc: Crc, p: nat, data: Bytes, begin: bool, n: nat, q: nat)
    requires n == Taken(p, data) < |data| && q == p + |Piece(crc, p, data, begin)|
    ensures n == 0 ==> Leftover(p) != BLOCK && Leftover(q) == BLOCK
  {
    if n == 0 { EmptyFragmentEndsBlock(p, data); }
  }

  /** Where the pieces of a record lie. */
  lemma {:induction false} PieceLies(crc: Crc, f: Bytes, p: nat, data: Bytes, begin: bool, n: nat, q: nat, end: nat)
    requires LiesAt(f, p, Emit(crc, p, data, begin)) && end == p + |Emit(crc, p, data, begin)|
    requires n == Taken(p, data) && q == p + |Piece(crc, p, data, begin)|
    ensures LiesAt(f, p, Piece(crc, p, data, begin))
    ensures n == |data| ==> end == q
    ensures n < |data| ==> LiesAt(f, q, Emit(crc, q, data[n..], false))
    ensures n < |data| ==> end == q + |Emit(crc, q, data[n..], false)|
  {
    EmitUnfolds(crc, p, data, begin);
    if n < |data| { LiesSplit(f, p, Piece(crc, p, data, begin), Emit(crc, q, data[n..], false)); }
  }

  /** A piece with more to follow leaves the rest of the record to be read behind it. */
  lemma {:induction false} FirstPieceIsRead(crc: Crc, f: Bytes, c: Bytes, p: nat, data: Bytes, begin: bool,
                                            scratch: Bytes, n: nat, q: nat)
    requires LiesAt(f, p, Piece(crc, p, data, begin)) && c <= f && p <= |c| && (begin ==> scratch == [])
    requires n == Taken(p, data) < |data| && q == p + |Piece(crc, p, data, begin)| <= |c|
    ensures RecordAt(crc, c, p, !begin, scratch) == RecordAt(crc, c, q, true, scratch + data[..n])
  {
    PieceFound(crc, f, c, p, data, begin, n, q);
    PartRead(crc, c, p, begin, scratch, data[..n], q);
  }

  lemma {:induction false} PieceFound(crc: Crc, f: Bytes, c: Bytes, p: nat, data: Bytes, begin: bool, n: nat, q: nat)
    requires LiesAt(f, p, Piece(crc, p, data, begin)) && c <= f && p <= |c|
    requires n == Taken(p, data) < |data| && q == p + |Piece(crc, p, data, begin)| <= |c|
    ensures PhysicalAt(crc, c, p) == Found(KindOf(begin, false), data[..n], q)
  {
    PieceRead(crc, f, c, p, data, begin);
  }

  /** A piece that is cut, or that ends its record. */
  lemma {:induction false} LastPieceIsRead(crc: Crc, f: Bytes, c: Bytes, p: nat, data: Bytes, begin: bool,
                                           scratch: Bytes, end: nat)
    requires LiesAt(f, p, Piece(crc, p, data, begin)) && c <= f && p <= |c| && (begin ==> scratch == [])
    requires var n, q := Taken(p, data), p + |Piece(crc, p, data, begin)|; if n == |data| then end == q else |c| < q <= end
    ensures ReadBack(crc, c, p, begin, scratch, scratch + data, end)
  {
    PieceRead(crc, f, c, p, data, begin);
    if p + |Piece(crc, p, data, begin)| > |c| {
      EofRead(crc, c, p, !begin, scratch);
    } else {
      assert data[..|data|] == data;
      EndRead(crc, c, p, begin, scratch, data, end);
    }
  }

  /** A record is read back from its first piece on if the rest is. */
  lemma {:induction false} ReadOn(crc: Crc, c: Bytes, p: nat, begin: bool, scratch: Bytes, data: Bytes, n: nat, q: nat,
                                  end: nat)
    requires p <= |c| && q <= |c| && n <= |data|
    requires RecordAt(crc, c, p, !begin, scratch) == RecordAt(crc, c, q, true, scratch + data[..n])
    requires ReadBack(crc, c, q, false, scratch + data[..n], scratch + data[..n] + data[n..], end)
    ensures ReadBack(crc, c, p, begin, scratch, scratch + data, end)
  {
    assert scratch + data[..n] + data[n..] == scratch + data;
  }

  /** How many of the records lie wholly inside the first `cut` bytes. */
  function Whole(crc: Crc, records: seq<Bytes>, cut: nat): (m: nat)
    ensures m <= |records|
  {
    if records == [] || |FileOf(crc, records)| <= cut then |records|
    else Whole(crc, records[..|records| - 1], cut)
  }

  lemma {:induction false} FileGrows(crc: Crc, records: seq<Bytes>, i: nat)
    requires i <= |records|
    ensures FileOf(crc, records[..i]) <= FileOf(crc, records)
    ensures i < |records| ==> |FileOf(crc, records[..i])| < |FileOf(crc, records)|
  {
    if i == |records| {
      assert records[..i] == records;
    } else {
      var front := records[..|records| - 1];
      FileGrows(crc, front, i);
      assert front[..i] == records[..i];
    }
  }

  lemma {:induction false} WholeIsExact(crc: Crc, records: seq<Bytes>, cut: nat, i: nat)
    requires i <= |records|
    ensures i <= Whole(crc, records, cut) <==> |FileOf(crc, records[..i])| <= cut
  {
    if i == |records| {
      assert records[..i] == records;
    } else {
      FileGrows(crc, records, i);
      if |FileOf(crc, records)| > cut {
        var front := records[..|records| - 1];
        WholeIsExact(crc, front, cut, i);
        assert front[..i] == records[..i];
      }
    }
  }

  /** Every record of a file from p on, and everything reported on the way. */
  function ReadAll(crc: Crc, c: Bytes, p: nat): (seq<Bytes>, seq<nat>)
    requires p <= |c|
    decreases |c| - p
  {
    var r := RecordAt(crc, c, p, false, []);
    if r.record.None? then ([], r.reports)
    else
      var rest := ReadAll(crc, c, r.next);
      ([r.record.value] + rest.0, r.reports + rest.1)
  }

  /** Record i lies in the file right after the records before it. */
  lemma {:induction false} RecordLies(crc: Crc, records: seq<Bytes>, i: nat)
    requires i < |records|
    ensures var p := |FileOf(crc, records[..i])|;
            LiesAt(FileOf(crc, records), p, Emit(crc, p, records[i], true)) &&
            |FileOf(crc, records[..i + 1])| == p + |Emit(crc, p, records[i], true)|
  {
    FileGrows(crc, records, i + 1);
    RecordAdded(crc, records, i);
    var front := FileOf(crc, records[..i]);
    EndOfFront(FileOf(crc, records), front, Emit(crc, |front|, records[i], true));
  }

  /** The file with record i is the file before it and what the record adds. */
  lemma {:induction false} RecordAdded(crc: Crc, records: seq<Bytes>, i: nat)
    requires i < |records|
    ensures var front := FileOf(crc, records[..i]);
            FileOf(crc, records[..i + 1]) == front + Emit(crc, |front|, records[i], true)
  {
    assert records[..i + 1][..i] == records[..i];
  }

  lemma EndOfFront(f: Bytes, front: Bytes, piece: Bytes)
    requires front + piece <= f
    ensures LiesAt(f, |front|, piece)
  {
    assert f[|front|..|front + piece|] == (front + piece)[|front|..];
  }

  lemma {:induction false} ReadAllStep(crc: Crc, c: Bytes, p: nat, record: Bytes, next: nat)
    requires p <= |c| && RecordAt(crc, c, p, false, []) == Reading(Some(record), next, [])
    ensures ReadAll(crc, c, p) == ([record] + ReadAll(crc, c, next).0, ReadAll(crc, c, next).1)
  {
    assert [] + ReadAll(crc, c, next).1 == ReadAll(crc, c, next).1;
  }

  lemma {:induction false} ReadAllEnds(crc: Crc, c: Bytes, p: nat)
    requires p <= |c| && RecordAt(crc, c, p, false, []) == Reading(None, |c|, [])
    ensures ReadAll(crc, c, p) == ([], [])
  {
  }

  /** What the reader makes of record i, or of what the cut left of it. */
  lemma {:induction false} NextRead(crc: Crc, records: seq<Bytes>, cut: nat, i: nat)
    requires i < |records| && |FileOf(crc, records[..i])| <= cut <= |FileOf(crc, records)|
    ensures var c := FileOf(crc, records)[..cut]; var q := |FileOf(crc, records[..i + 1])|;
            RecordAt(crc, c, |FileOf(crc, records[..i])|, false, []) ==
              if q <= cut then Reading(Some(records[i]), q, []) else Reading(None, cut, [])
  {
    var f := FileOf(crc, records);
    RecordLies(crc, records, i);
    EmitIsRead(crc, f, f[..cut], |FileOf(crc, records[..i])|, records[i], true, [], |FileOf(crc, records[..i + 1])|);
    assert [] + records[i] == records[i];
  }

  /** The same of any file that begins so: what lies behind does not matter. */
  lemma {:induction false} FrontRead(crc: Crc, records: seq<Bytes>, c: Bytes, i: nat)
    requires i < |records| && FileOf(crc, records) <= c
    ensures |FileOf(crc, records[..i])| <= |FileOf(crc, records[..i + 1])| <= |c|
    ensures RecordAt(crc, c, |FileOf(crc, records[..i])|, false, [])
         == Reading(Some(records[i]), |FileOf(crc, records[..i + 1])|, [])
  {
    var p := |FileOf(crc, records[..i])|;
    FileGrows(crc, records, i + 1);
    RecordLies(crc, records, i);
    LiesInLonger(FileOf(crc, records), c, p, Emit(crc, p, records[i], true));
    EmitIsRead(crc, c, c, p, records[i], true, [], |FileOf(crc, records[..i + 1])|);
    assert [] + records[i] == records[i];
  }

  lemma LiesInLonger(f: Bytes, c: Bytes, p: nat, piece: Bytes)
    requires LiesAt(f, p, piece) && f <= c
    ensures LiesAt(c, p, piece)
  {
    assert c[p..p + |piece|] == f[p..p + |piece|];
  }

  /** At its end a file holds no further record. */
  lemma {:induction false} NothingAtEnd(crc: Crc, c: Bytes)
    ensures RecordAt(crc, c, |c|, false, []) == Reading(None, |c|, [])
  {
  }

  /** Where record i starts. */
  function StartOf(crc: Crc, records: seq<Bytes>, i: nat): nat
    requires i <= |records|
  {
    if i == 0 then 0
    else var p := StartOf(crc, records, i - 1); p + |Emit(crc, p, records[i - 1], true)|
  }

  lemma {:induction false} StartsAfterFront(crc: Crc, records: seq<Bytes>, i: nat)
    requires i <= |records|
    ensures StartOf(crc, records, i) == |FileOf(crc, records[..i])|
  {
    if i > 0 {
      StartsAfterFront(crc, records, i - 1);
      RecordLies(crc, records, i - 1);
    }
  }

  /** Record i, or the end of the whole ones, starts there, inside the cut. */
  ghost predicate StartsIn(crc: Crc, records: seq<Bytes>, cut: nat, i: nat, p: nat) {
    && i <= Whole(crc, records, cut) && p == StartOf(crc, records, i)
    && p == |FileOf(crc, records[..i])| <= cut
  }

  lemma {:induction false} WholeStart(crc: Crc, records: seq<Bytes>, cut: nat, i: nat)
    requires i <= Whole(crc, records, cut)
    ensures StartsIn(crc, records, cut, i, StartOf(crc, records, i))
  {
    StartsAfterFront(crc, records, i);
    WholeIsExact(crc, records, cut, i);
  }

  /** One of the whole records is read. */
  lemma {:induction false} WholeIsRead(crc: Crc, records: seq<Bytes>, c: Bytes, i: nat, p: nat, q: nat)
    requires c <= FileOf(crc, records) && i < |records|
    requires StartsIn(crc, records, |c|, i, p) && StartsIn(crc, records, |c|, i + 1, q)
    ensures RecordAt(crc, c, p, false, []) == Reading(Some(records[i]), q, [])
  {
    assert c == FileOf(crc, records)[..|c|];
    NextRead(crc, records, |c|, i);
  }

  /** Behind the last of them the reader finds the end. */
  lemma {:induction false} RestIsEnd(crc: Crc, records: seq<Bytes>, c: Bytes, p: nat)
    requires c <= FileOf(crc, records) && StartsIn(crc, records, |c|, Whole(crc, records, |c|), p)
    ensures RecordAt(crc, c, p, false, []) == Reading(None, |c|, [])
  {
    var m := Whole(crc, records, |c|);
    if m < |records| {
      assert c == FileOf(crc, records)[..|c|];
      WholeIsExact(crc, records, |c|, m + 1);
      NextRead(crc, records, |c|, m);
    } else {
      assert records[..m] == records;
      NothingAtEnd(crc, c);
    }
  }

  /** The reader finds m records at these places, and behind them the end. */
  ghost predicate ReadsAlong(crc: Crc, c: Bytes, records: seq<Bytes>, starts: seq<nat>, m: nat) {
    && m <= |records| && |starts| == m + 1 && (forall i :: 0 <= i <= m ==> starts[i] <= |c|)
    && (forall i :: 0 <= i < m ==> ReadsOne(crc, c, records, starts, i))
    && RecordAt(crc, c, starts[m], false, []) == Reading(None, |c|, [])
  }

  ghost predicate ReadsOne(crc: Crc, c: Bytes, records: seq<Bytes>, starts: seq<nat>, i: nat) {
    && i < |records| && i + 1 < |starts| && starts[i] <= |c|
    && RecordAt(crc, c, starts[i], false, []) == Reading(Some(records[i]), starts[i + 1], [])
  }

  lemma {:induction false} ReadsFrom(crc: Crc, c: Bytes, records: seq<Bytes>, starts: seq<nat>, m: nat, i: nat)
    requires ReadsAlong(crc, c, records, starts, m) && i <= m
    ensures ReadAll(crc, c, starts[i]) == (records[i..m], [])
    decreases m - i
  {
    if i == m {
      ReadAllEnds(crc, c, starts[i]);
      assert records[i..m] == [];
    } else {
      ReadsFrom(crc, c, records, starts, m, i + 1);
      assert ReadsOne(crc, c, records, starts, i);
      ReadAllStep(crc, c, starts[i], records[i], starts[i + 1]);
      assert records[i..m] == [records[i]] + records[i + 1..m];
    }
  }

  lemma {:induction false} WholeAreRead(crc: Crc, records: seq<Bytes>, c: Bytes) returns (starts: seq<nat>)
    requires c <= FileOf(crc, records)
    ensures ReadsAlong(crc, c, records, starts, Whole(crc, records, |c|)) && starts[0] == 0
  {
    var m := Whole(crc, records, |c|);
    starts := seq(m + 1, i requires 0 <= i <= m => StartOf(crc, records, i));
    forall i | 0 <= i <= m
      ensures StartsIn(crc, records, |c|, i, starts[i])
    {
      WholeStart(crc, records, |c|, i);
    }
    forall i | 0 <= i < m
      ensures ReadsOne(crc, c, records, starts, i)
    {
      WholeIsRead(crc, records, c, i, starts[i], starts[i + 1]);
    }
    RestIsEnd(crc, records, c, starts[m]);
  }

  /** Crash safety of the log: cut the file of any records at any byte, and the reader returns
      exactly the records that lie wholly inside the cut, in order, and reports nothing. */
  lemma {:induction false} CutReadsPrefix(crc: Crc, records: seq<Bytes>, c: Bytes)
    requires c <= FileOf(crc, records)
    ensures ReadAll(crc, c, 0) == (records[..Whole(crc, records, |c|)], [])
  {
    var starts := WholeAreRead(crc, records, c);
    ReadsFrom(crc, c, records, starts, Whole(crc, records, |c|), 0);
  }
}
