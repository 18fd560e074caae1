/** Recovery of a log file: every record the reader returns is applied to a memtable, and
    memtables are written out as level-0 tables. */
module Recovery {
  import opened Format
  import opened Coding
  import opened LogFile
  import opened LogCrash
  import opened Batches

  /** What recovery has done: the updates given to memtables, the largest sequence number, and
      whether the status is still OK. */
  datatype Recovered = Recovered(adds: seq<Numbered>, maxSequence: nat, ok: bool)

  /** The number of the last update of a batch, in 64-bit arithmetic. */
  function LastSequence(rep: Bytes): nat
    requires |rep| >= BATCH_HEADER
  {
    (Sequence(rep) + Count(rep) - 1) % TWO_64
  }

  function Max(a: nat, b: nat): nat {
    if a < b then b else a
  }

  /** What one record does.  Without paranoid checks errors are ignored, and a batch that turns
      out malformed half-way stays half-applied. */
  function Apply(record: Bytes, paranoid: bool, r: Recovered): Recovered {
    if |record| < BATCH_HEADER then r.(ok := !paranoid)
    else
      var (us, status) := ParseBatch(record);
      var adds := r.adds + Number(Sequence(record), us);
      if paranoid && status != Ok then r.(adds := adds, ok := false)
      else Recovered(adds, Max(r.maxSequence, LastSequence(record)), true)
  }

  /** Recovery from file position p on. */
  function Recover(crc: Crc, c: Bytes, p: nat, paranoid: bool, r: Recovered): Recovered
    requires p <= |c|
    decreases |c| - p
  {
    var reading := RecordAt(crc, c, p, false, []);
    if paranoid && reading.reports != [] then r.(ok := false)
    else if reading.record.None? then r
    else
      var r' := Apply(reading.record.value, paranoid, r);
      if r'.ok then Recover(crc, c, reading.next, paranoid, r') else r'
  }

  function Joined(tables: seq<seq<Numbered>>): seq<Numbered> {
    if tables == [] then [] else Joined(tables[..|tables| - 1]) + tables[|tables| - 1]
  }

  function Pending(mem: Option<seq<Numbered>>): seq<Numbered> {
    if mem.Some? then mem.value else []
  }

  lemma {:induction false} JoinedSnoc(tables: seq<seq<Numbered>>, table: seq<Numbered>)
    ensures Joined(tables + [table]) == Joined(tables) + table
  {
    assert (tables + [table])[..|tables|] == tables;
  }

  /** Applies one record to the memtable. */
  method ApplyRecord(record: Bytes, paranoid: bool, mem: Option<seq<Numbered>>, maxSequence: nat,
                     ghost flushed: seq<Numbered>)
    returns (mem': Option<seq<Numbered>>, maxSequence': nat, ok: bool)
    ensures Recovered(flushed + Pending(mem'), maxSequence', ok)
         == Apply(record, paranoid, Recovered(flushed + Pending(mem), maxSequence, true))
    ensures mem' == Grown(record, mem) && (ok <==> !paranoid || WholeBatch(record))
  {
    mem', maxSequence', ok := mem, maxSequence, true;
    if |record| < BATCH_HEADER {
      ok := !paranoid;
      return;
    }
    var batch := new WriteBatch();
    batch.SetContents(record);
    var inserter := new MemTableInserter(Sequence(record), Pending(mem));
    var status := batch.Iterate(inserter);
    mem' := Some(inserter.mem);
    assert flushed + (Pending(mem) + Number(Sequence(record), ParseBatch(record).0))
        == flushed + Pending(mem) + Number(Sequence(record), ParseBatch(record).0);
    if paranoid && status != Ok {
      ok := false;
      return;
    }
    maxSequence' := Max(maxSequence, LastSequence(record));
  }

  // What is written to tables.

  /** What recovery of a file writes: tables as memtables fill up, and the last memtable at the end;
      `lost` is what the memtable held when an error ended recovery, which is not written. */
  datatype Flushed = Flushed(tables: seq<seq<Numbered>>, lost: seq<Numbered>) {
    function Behind(table: seq<Numbered>): Flushed { Flushed([table] + tables, lost) }
  }

  /** A record that holds a whole batch. */
  predicate WholeBatch(record: Bytes) {
    |record| >= BATCH_HEADER && ParseBatch(record).1 == Ok
  }

  /** The memtable once a record has been applied; a record too small to be a batch is skipped. */
  function Grown(record: Bytes, mem: Option<seq<Numbered>>): Option<seq<Numbered>> {
    if |record| < BATCH_HEADER then mem
    else Some(Pending(mem) + Number(Sequence(record), ParseBatch(record).0))
  }

  function LastTable(mem: Option<seq<Numbered>>): seq<seq<Numbered>> {
    if mem.Some? then [mem.value] else []
  }

  /** What is written from file position p on; `full` says when a memtable is. */
  function FlushFrom(crc: Crc, c: Bytes, p: nat, paranoid: bool, full: seq<Numbered> -> bool,
                     mem: Option<seq<Numbered>>): Flushed
    requires p <= |c|
    decreases |c| - p
  {
    var reading := RecordAt(crc, c, p, false, []);
    if paranoid && reading.reports != [] then Flushed([], Pending(mem))
    else if reading.record.None? then Flushed(LastTable(mem), [])
    else
      var record := reading.record.value;
      var mem' := Grown(record, mem);
      if paranoid && !WholeBatch(record) then Flushed([], Pending(mem'))
      else if |record| >= BATCH_HEADER && full(mem'.value) then
        FlushFrom(crc, c, reading.next, paranoid, full, None).Behind(mem'.value)
      else FlushFrom(crc, c, reading.next, paranoid, full, mem')
  }

  /** One reading's part in what is written. */
  lemma {:induction false} FlushGoesOn(crc: Crc, c: Bytes, p: nat, paranoid: bool, full: seq<Numbered> -> bool,
                                     mem: Option<seq<Numbered>>, record: Bytes, next: nat, reports: seq<nat>,
                                     mem': Option<seq<Numbered>>)
    requires p <= |c| && RecordAt(crc, c, p, false, []) == Reading(Some(record), next, reports)
    requires (!paranoid || reports == []) && mem' == Grown(record, mem)
    ensures FlushFrom(crc, c, p, paranoid, full, mem)
         == if paranoid && !WholeBatch(record) then Flushed([], Pending(mem'))
            else if |record| >= BATCH_HEADER && full(mem'.value) then
              FlushFrom(crc, c, next, paranoid, full, None).Behind(mem'.value)
            else FlushFrom(crc, c, next, paranoid, full, mem')
  {
  }

  lemma {:induction false} FlushStops(crc: Crc, c: Bytes, p: nat, paranoid: bool, full: seq<Numbered> -> bool,
                                      mem: Option<seq<Numbered>>)
    requires p <= |c|
    requires (paranoid && RecordAt(crc, c, p, false, []).reports != []) || RecordAt(crc, c, p, false, []).record.None?
    ensures FlushFrom(crc, c, p, paranoid, full, mem)
         == if paranoid && RecordAt(crc, c, p, false, []).reports != [] then Flushed([], Pending(mem))
            else Flushed(LastTable(mem), [])
  {
  }

  /** Reads the next record and applies it; `more` says whether to go on, `applied` whether there
      was a batch. */
  method ReplayRecord(reader: Reader, paranoid: bool, mem: Option<seq<Numbered>>, maxSequence: nat,
                      ghost flushed: seq<Numbered>, ghost full: seq<Numbered> -> bool)
    returns (more: bool, applied: bool, mem': Option<seq<Numbered>>, maxSequence': nat, ok: bool)
    requires reader.Valid()
    modifies reader
    ensures reader.Valid() && (more ==> ok && reader.Position() > old(reader.Position())) && (applied ==> mem'.Some?)
    ensures Recover(reader.crc, reader.file, old(reader.Position()), paranoid,
                    Recovered(flushed + Pending(mem), maxSequence, true))
         == Onward(reader.crc, reader.file, reader.Position(), paranoid, more,
                   Recovered(flushed + Pending(mem'), maxSequence', ok))
    ensures FlushFrom(reader.crc, reader.file, old(reader.Position()), paranoid, full, mem)
         == if !more then Flushed(if ok then LastTable(mem') else [], if ok then [] else Pending(mem'))
            else if applied && full(mem'.value) then
              FlushFrom(reader.crc, reader.file, reader.Position(), paranoid, full, None).Behind(mem'.value)
            else FlushFrom(reader.crc, reader.file, reader.Position(), paranoid, full, mem')
  {
    mem', maxSequence', ok, applied := mem, maxSequence, true, false;
    var reported := |reader.reports|;
    ghost var p := reader.Position();
    var record := reader.ReadRecord();
    if paranoid && |reader.reports| > reported {
      ok := false;
    }
    if record.None? || !ok {
      FlushStops(reader.crc, reader.file, p, paranoid, full, mem);
      return false, false, mem', maxSequence', ok;
    }
    mem', maxSequence', ok := ApplyRecord(record.value, paranoid, mem, maxSequence, flushed);
    FlushGoesOn(reader.crc, reader.file, p, paranoid, full, mem, record.value, reader.Position(), reader.reports[reported..],
              mem');
    applied := |record.value| >= BATCH_HEADER;
    more := ok;
  }

  /** Replays a log file; `full` says when a memtable is written out early.  Each table written
      holds what one memtable was given, in order. */
  method RecoverLogFile(crc: Crc, file: Bytes, paranoid: bool, maxSequence0: nat, full: seq<Numbered> -> bool)
    returns (tables: seq<seq<Numbered>>, maxSequence: nat, ok: bool)
    ensures tables == FlushFrom(crc, file, 0, paranoid, full, None).tables
    ensures var r := Recover(crc, file, 0, paranoid, Recovered([], maxSequence0, true));
            && ok == r.ok && maxSequence == r.maxSequence
            && (if ok then Joined(tables) == r.adds else Joined(tables) <= r.adds)
  {
    var reader := new Reader(crc, file);
    var mem: Option<seq<Numbered>> := None;
    var more := true;
    tables, maxSequence, ok := [], maxSequence0, true;
    ghost var goal := Recover(crc, file, 0, paranoid, Recovered([], maxSequence0, true));
    ghost var written := FlushFrom(crc, file, 0, paranoid, full, None);
    assert Joined([]) + Pending(None) == [];
    while more
      invariant reader.Valid() && fresh(reader) && reader.crc == crc && reader.file == file
      invariant more ==> ok
      invariant goal == Onward(crc, file, reader.Position(), paranoid, more,
                               Recovered(Joined(tables) + Pending(mem), maxSequence, ok))
      invariant written.tables == tables + StillWritten(crc, file, reader.Position(), paranoid, full, more, mem, ok)
      decreases more, |file| - reader.Position()
    {
      var applied;
      more, applied, mem, maxSequence, ok := ReplayRecord(reader, paranoid, mem, maxSequence, Joined(tables), full);
      if applied && more && full(mem.value) {
        FlushedKeepsAll(tables, mem.value);
        TableBehind(tables, mem.value, FlushFrom(crc, file, reader.Position(), paranoid, full, None).tables);
        tables, mem := tables + [mem.value], None;
      }
    }
    if ok && mem.Some? {
      FlushedKeepsAll(tables, mem.value);
      tables := tables + [mem.value];
    }
  }

  /** What is still to be written: from p on, or when recovery has stopped the last memtable. */
  ghost function StillWritten(crc: Crc, c: Bytes, p: nat, paranoid: bool, full: seq<Numbered> -> bool, more: bool,
                              mem: Option<seq<Numbered>>, ok: bool): seq<seq<Numbered>>
    requires p <= |c|
  {
    if more then FlushFrom(crc, c, p, paranoid, full, mem).tables else if ok then LastTable(mem) else []
  }

  lemma TableBehind(tables: seq<seq<Numbered>>, table: seq<Numbered>, rest: seq<seq<Numbered>>)
    ensures tables + ([table] + rest) == tables + [table] + rest
  {
  }

  /** What recovery comes to: from p on, or where it stands when it has stopped. */
  function Onward(crc: Crc, c: Bytes, p: nat, paranoid: bool, more: bool, r: Recovered): Recovered
    requires p <= |c|
  {
    if more then Recover(crc, c, p, paranoid, r) else r
  }

  lemma {:induction false} FlushedKeepsAll(tables: seq<seq<Numbered>>, table: seq<Numbered>)
    ensures Joined(tables + [table]) + Pending(None) == Joined(tables + [table]) == Joined(tables) + table
  {
    JoinedSnoc(tables, table);
  }

  // When recovery of a file fails, and what it loses then.

  /** From position p on there is nothing to object to: the reader drops nothing, and every record
      holds a whole batch. */
  ghost predicate CleanFrom(crc: Crc, c: Bytes, p: nat)
    requires p <= |c|
  {
    ReadAll(crc, c, p).1 == [] && forall record :: record in ReadAll(crc, c, p).0 ==> WholeBatch(record)
  }

  ghost predicate Clean(crc: Crc, c: Bytes) {
    CleanFrom(crc, c, 0)
  }

  /** With paranoid checks recovery of a file fails if and only if there is something to object to. */
  lemma {:induction false} FailsExactly(crc: Crc, c: Bytes, p: nat, paranoid: bool, r: Recovered)
    requires p <= |c| && r.ok
    ensures Recover(crc, c, p, paranoid, r).ok <==> !paranoid || CleanFrom(crc, c, p)
    decreases |c| - p
  {
    var reading := RecordAt(crc, c, p, false, []);
    if reading.record.Some? {
      var r' := Apply(reading.record.value, paranoid, r);
      CleanStep(crc, c, p, reading.record.value, reading.next, reading.reports);
      if r'.ok { FailsExactly(crc, c, reading.next, paranoid, r'); }
    }
  }

  lemma {:induction false} CleanStep(crc: Crc, c: Bytes, p: nat, record: Bytes, next: nat, reports: seq<nat>)
    requires p <= |c| && RecordAt(crc, c, p, false, []) == Reading(Some(record), next, reports)
    ensures CleanFrom(crc, c, p) <==> reports == [] && WholeBatch(record) && CleanFrom(crc, c, next)
  {
    var rest := ReadAll(crc, c, next);
    assert ReadAll(crc, c, p) == ([record] + rest.0, reports + rest.1);
    assert |reports + rest.1| == |reports| + |rest.1|;
  }

  /** What was recovered before stays in front. */
  lemma {:induction false} AddsInFront(crc: Crc, c: Bytes, p: nat, paranoid: bool, front: seq<Numbered>, r: Recovered)
    requires p <= |c|
    ensures Recover(crc, c, p, paranoid, r.(adds := front + r.adds)) == InFront(front, Recover(crc, c, p, paranoid, r))
    decreases |c| - p
  {
    var reading := RecordAt(crc, c, p, false, []);
    if !(paranoid && reading.reports != []) && reading.record.Some? {
      var r' := Apply(reading.record.value, paranoid, r);
      ApplyInFront(reading.record.value, paranoid, front, r);
      if r'.ok { AddsInFront(crc, c, reading.next, paranoid, front, r'); }
    }
  }

  function InFront(front: seq<Numbered>, r: Recovered): Recovered {
    r.(adds := front + r.adds)
  }

  lemma ApplyInFront(record: Bytes, paranoid: bool, front: seq<Numbered>, r: Recovered)
    ensures Apply(record, paranoid, InFront(front, r)) == InFront(front, Apply(record, paranoid, r))
  {
    if |record| >= BATCH_HEADER {
      var more := Number(Sequence(record), ParseBatch(record).0);
      assert front + r.adds + more == front + (r.adds + more);
    }
  }

  lemma {:induction false} JoinedAppend(a: seq<seq<Numbered>>, b: seq<seq<Numbered>>)
    ensures Joined(a + b) == Joined(a) + Joined(b)
  {
    if b == [] {
      assert a + b == a;
    } else {
      var last := b[|b| - 1];
      JoinedAppend(a, b[..|b| - 1]);
      assert a + b == a + b[..|b| - 1] + [last];
      JoinedSnoc(a + b[..|b| - 1], last);
      assert Joined(a) + Joined(b[..|b| - 1]) + last == Joined(a) + (Joined(b[..|b| - 1]) + last);
    }
  }

  /** Nothing else happens to updates: what memtables were given is in the tables or lost, and lost
      only when there was an error. */
  lemma {:induction false} WrittenOrLost(crc: Crc, c: Bytes, p: nat, paranoid: bool, full: seq<Numbered> -> bool,
                                         mem: Option<seq<Numbered>>, max: nat)
    requires p <= |c|
    ensures var w := FlushFrom(crc, c, p, paranoid, full, mem);
            var r := Recover(crc, c, p, paranoid, Recovered(Pending(mem), max, true));
            r.adds == Joined(w.tables) + w.lost && (r.ok ==> w.lost == [])
    decreases |c| - p
  {
    var reading := RecordAt(crc, c, p, false, []);
    if (paranoid && reading.reports != []) || reading.record.None? {
      FlushStops(crc, c, p, paranoid, full, mem);
      JoinedLast(mem);
    } else {
      var record := reading.record.value;
      var mem', r' := Grown(record, mem), Apply(record, paranoid, Recovered(Pending(mem), max, true));
      FlushGoesOn(crc, c, p, paranoid, full, mem, record, reading.next, reading.reports, mem');
      RecoverStep(crc, c, p, paranoid, mem, max, record, reading.next, reading.reports);
      if r'.ok {
        if |record| >= BATCH_HEADER && full(mem'.value) {
          WrittenOrLost(crc, c, reading.next, paranoid, full, None, r'.maxSequence);
          WrittenBehind(crc, c, reading.next, paranoid, full, mem'.value, r'.maxSequence);
        } else {
          WrittenOrLost(crc, c, reading.next, paranoid, full, mem', r'.maxSequence);
        }
      }
    }
  }

  lemma {:induction false} RecoverStep(crc: Crc, c: Bytes, p: nat, paranoid: bool, mem: Option<seq<Numbered>>, max: nat,
                                       record: Bytes, next: nat, reports: seq<nat>)
    requires p <= |c| && RecordAt(crc, c, p, false, []) == Reading(Some(record), next, reports)
    requires !paranoid || reports == []
    ensures var r := Recovered(Pending(mem), max, true); var r' := Apply(record, paranoid, r);
            && r'.adds == Pending(Grown(record, mem)) && (r'.ok <==> !paranoid || WholeBatch(record))
            && Recover(crc, c, p, paranoid, r) == if r'.ok then Recover(crc, c, next, paranoid, r') else r'
  {
  }

  lemma {:induction false} WrittenBehind(crc: Crc, c: Bytes, p: nat, paranoid: bool, full: seq<Numbered> -> bool,
                                         table: seq<Numbered>, max: nat)
    requires p <= |c|
    requires var w := FlushFrom(crc, c, p, paranoid, full, None);
             Recover(crc, c, p, paranoid, Recovered([], max, true)).adds == Joined(w.tables) + w.lost
    ensures var w := FlushFrom(crc, c, p, paranoid, full, None).Behind(table);
            var r := Recover(crc, c, p, paranoid, Recovered(table, max, true));
            r.adds == Joined(w.tables) + w.lost
            && r.ok == Recover(crc, c, p, paranoid, Recovered([], max, true)).ok
  {
    var w := FlushFrom(crc, c, p, paranoid, full, None);
    AddsInFront(crc, c, p, paranoid, table, Recovered([], max, true));
    assert table + [] == table;
    JoinedFirst(table, w.tables, w.lost);
  }

  lemma {:induction false} JoinedLast(mem: Option<seq<Numbered>>)
    ensures Joined(LastTable(mem)) + [] == Pending(mem) == Joined([]) + Pending(mem)
  {
    if mem.Some? { JoinedSnoc([], mem.value); }
  }

  lemma {:induction false} JoinedFirst(table: seq<Numbered>, tables: seq<seq<Numbered>>, lost: seq<Numbered>)
    ensures Joined([table] + tables) + lost == table + (Joined(tables) + lost)
  {
    JoinedAppend([table], tables);
    JoinedSnoc([], table);
  }

  /** A group of updates as it was committed, one log record: numbered from `before` + 1 on. */
  datatype Group = Group(before: nat, updates: seq<Update>) {
    function Record(): Bytes { Rep(before + 1, updates) }

    function Numbers(): seq<Numbered> { Number(before + 1, updates) }

    function Last(): nat { before + |updates| }

    /** What the writer guarantees of a group. */
    ghost predicate Committed() {
      AllEncodable(updates) && |updates| < 0x8000_0000 && Last() <= MAX_SEQUENCE
    }
  }

  function Records(groups: seq<Group>): (r: seq<Bytes>)
    ensures |r| == |groups| && forall i :: 0 <= i < |r| ==> r[i] == groups[i].Record()
  {
    seq(|groups|, i requires 0 <= i < |groups| => groups[i].Record())
  }

  /** Every update of the groups under the number it was given. */
  function Adds(groups: seq<Group>): seq<Numbered> {
    if groups == [] then [] else groups[0].Numbers() + Adds(groups[1..])
  }

  function LastOf(groups: seq<Group>, least: nat): nat {
    if groups == [] then least else LastOf(groups[1..], Max(least, groups[0].Last()))
  }

  /** What applying a group must do. */
  function With(r: Recovered, g: Group): Recovered {
    Recovered(r.adds + g.Numbers(), Max(r.maxSequence, g.Last()), true)
  }

  lemma GroupApplied(g: Group, paranoid: bool, r: Recovered)
    requires g.Committed() && r.ok
    ensures Apply(g.Record(), paranoid, r) == With(r, g)
  {
    RecordParses(g);
    WholeApplied(g.Record(), g.updates, g.before + 1, g.Last(), paranoid, r);
  }

  lemma RecordParses(g: Group)
    requires g.Committed()
    ensures |g.Record()| >= BATCH_HEADER && ParseBatch(g.Record()) == (g.updates, Ok)
    ensures Sequence(g.Record()) == g.before + 1 && LastSequence(g.Record()) == g.Last()
  {
    BatchRoundTrip(g.before + 1, g.updates);
    CountAndBody(g.before + 1, g.updates);
    LastRead(g.Record(), g);
  }

  lemma WholeApplied(record: Bytes, us: seq<Update>, sequence: nat, last: nat, paranoid: bool, r: Recovered)
    requires |record| >= BATCH_HEADER && ParseBatch(record) == (us, Ok) && r.ok
    requires Sequence(record) == sequence && LastSequence(record) == last
    ensures Apply(record, paranoid, r) == Recovered(r.adds + Number(sequence, us), Max(r.maxSequence, last), true)
  {
  }

  lemma LastRead(record: Bytes, g: Group)
    requires |record| >= BATCH_HEADER && g.Committed()
    requires Sequence(record) == g.before + 1 && Count(record) == |g.updates|
    ensures LastSequence(record) == g.Last()
  {
  }

  /** One record read without a report. */
  lemma RecoverOne(crc: Crc, c: Bytes, p: nat, paranoid: bool, r: Recovered, r': Recovered, record: Bytes,
                   rest: seq<Bytes>)
    returns (next: nat)
    requires p <= |c| && ReadAll(crc, c, p) == ([record] + rest, [])
    requires r' == Apply(record, paranoid, r) && r'.ok
    ensures next <= |c| && ReadAll(crc, c, next) == (rest, [])
    ensures Recover(crc, c, p, paranoid, r) == Recover(crc, c, next, paranoid, r')
  {
    next := RecordAt(crc, c, p, false, []).next;
    var reading := RecordAt(crc, c, p, false, []);
    if reading.record.Some? {
      var tail := ReadAll(crc, c, reading.next);
      assert ([record] + rest)[0] == record && ([record] + rest)[1..] == rest;
      assert ([reading.record.value] + tail.0)[1..] == tail.0;
      assert |reading.reports + tail.1| == |reading.reports| + |tail.1|;
    }
  }

  lemma {:induction false} RecoverNone(crc: Crc, c: Bytes, p: nat, paranoid: bool, r: Recovered)
    requires p <= |c| && ReadAll(crc, c, p) == ([], [])
    ensures Recover(crc, c, p, paranoid, r) == r
  {
  }

  lemma FirstRecord(groups: seq<Group>)
    requires groups != []
    ensures Records(groups) == [groups[0].Record()] + Records(groups[1..])
  {
  }

  lemma RecoverGroup(crc: Crc, c: Bytes, p: nat, paranoid: bool, groups: seq<Group>, r: Recovered) returns (next: nat)
    requires p <= |c| && r.ok && groups != [] && groups[0].Committed()
    requires ReadAll(crc, c, p) == (Records(groups), [])
    ensures next <= |c| && ReadAll(crc, c, next) == (Records(groups[1..]), [])
    ensures Recover(crc, c, p, paranoid, r) == Recover(crc, c, next, paranoid, With(r, groups[0]))
  {
    GroupApplied(groups[0], paranoid, r);
    FirstRecord(groups);
    next := RecoverOne(crc, c, p, paranoid, r, With(r, groups[0]), groups[0].Record(), Records(groups[1..]));
  }

  /** The groups applied one after another. */
  function AllApplied(groups: seq<Group>, r: Recovered): Recovered {
    if groups == [] then r else AllApplied(groups[1..], With(r, groups[0]))
  }

  lemma {:induction false} AllAppliedIs(groups: seq<Group>, r: Recovered)
    requires r.ok
    ensures AllApplied(groups, r) == Recovered(r.adds + Adds(groups), LastOf(groups, r.maxSequence), true)
  {
    if groups == [] {
      assert r.adds + [] == r.adds;
    } else {
      AllAppliedIs(groups[1..], With(r, groups[0]));
      assert r.adds + (groups[0].Numbers() + Adds(groups[1..])) == r.adds + groups[0].Numbers() + Adds(groups[1..]);
    }
  }

  lemma {:induction false} RecoverGroups(crc: Crc, c: Bytes, p: nat, paranoid: bool, groups: seq<Group>, r: Recovered)
    requires p <= |c| && r.ok && ReadAll(crc, c, p) == (Records(groups), [])
    requires forall g :: g in groups ==> g.Committed()
    ensures Recover(crc, c, p, paranoid, r) == AllApplied(groups, r)
    decreases |groups|
  {
    if groups == [] {
      assert Records(groups) == [];
      RecoverNone(crc, c, p, paranoid, r);
    } else {
      var next := RecoverGroup(crc, c, p, paranoid, groups, r);
      RecoverGroups(crc, c, next, paranoid, groups[1..], With(r, groups[0]));
    }
  }

  /** Crash safety of the write path: from a log cut at any byte recovery applies exactly the
      groups that lie wholly inside the cut, each update under its own number, and no part of
      any other group. */
  lemma {:induction false} RecoversWholeGroups(crc: Crc, groups: seq<Group>, c: Bytes, paranoid: bool, least: nat)
    requires forall g :: g in groups ==> g.Committed()
    requires c <= FileOf(crc, Records(groups))
    ensures Recover(crc, c, 0, paranoid, Recovered([], least, true))
         == Recovered(Adds(groups[..Whole(crc, Records(groups), |c|)]),
                      LastOf(groups[..Whole(crc, Records(groups), |c|)], least), true)
  {
    var m := Whole(crc, Records(groups), |c|);
    CutReadsPrefix(crc, Records(groups), c);
    assert Records(groups)[..m] == Records(groups[..m]);
    RecoverGroups(crc, c, 0, paranoid, groups[..m], Recovered([], least, true));
    AllAppliedIs(groups[..m], Recovered([], least, true));
    assert [] + Adds(groups[..m]) == Adds(groups[..m]);
  }

  /** The groups were numbered one after another, the first right behind `last`. */
  ghost predicate Consecutive(groups: seq<Group>, last: nat) {
    groups == [] || (groups[0].before == last && Consecutive(groups[1..], groups[0].Last()))
  }

  function Updates(groups: seq<Group>): seq<Update> {
    if groups == [] then [] else groups[0].updates + Updates(groups[1..])
  }

  lemma {:induction false} ConsecutiveAdds(groups: seq<Group>, last: nat)
    requires Consecutive(groups, last)
    ensures Adds(groups) == Number(last + 1, Updates(groups))
    ensures LastOf(groups, last) == last + |Updates(groups)|
  {
    if groups != [] {
      ConsecutiveAdds(groups[1..], groups[0].Last());
      NumberSplit(last + 1, groups[0].updates, Updates(groups[1..]));
    }
  }

  lemma NumberSplit(next: nat, a: seq<Update>, b: seq<Update>)
    ensures Number(next, a + b) == Number(next, a) + Number(next + |a|, b)
  {
  }

  lemma {:induction false} ConsecutivePrefix(groups: seq<Group>, last: nat, m: nat)
    requires Consecutive(groups, last) && m <= |groups|
    ensures Consecutive(groups[..m], last)
    ensures Updates(groups[..m]) <= Updates(groups)
  {
    if m > 0 {
      ConsecutivePrefix(groups[1..], groups[0].Last(), m - 1);
      assert groups[..m][1..] == groups[1..][..m - 1];
    }
  }

  /** Seen as a history of updates: what survives a crash is a prefix of the updates committed,
      under the same numbers, and the store goes on counting right behind it. */
  lemma {:induction false} RecoversPrefixOfHistory(crc: Crc, groups: seq<Group>, last: nat, c: Bytes, paranoid: bool)
    requires (forall g :: g in groups ==> g.Committed()) && Consecutive(groups, last)
    requires c <= FileOf(crc, Records(groups))
    ensures var kept := Updates(groups[..Whole(crc, Records(groups), |c|)]);
            && kept <= Updates(groups)
            && Recover(crc, c, 0, paranoid, Recovered([], last, true))
            == Recovered(Number(last + 1, kept), last + |kept|, true)
  {
    var m := Whole(crc, Records(groups), |c|);
    RecoversWholeGroups(crc, groups, c, paranoid, last);
    ConsecutivePrefix(groups, last, m);
    ConsecutiveAdds(groups[..m], last);
  }

  /** Groups written at the front of a file are applied whatever lies behind them, and then
      recovery goes on there. */
  lemma {:induction false} FrontApplied(crc: Crc, groups: seq<Group>, c: Bytes, paranoid: bool, r: Recovered, i: nat)
    requires (forall g :: g in groups ==> g.Committed()) && FileOf(crc, Records(groups)) <= c && r.ok && i <= |groups|
    requires |FileOf(crc, Records(groups)[..i])| <= |c|
    ensures Recover(crc, c, |FileOf(crc, Records(groups)[..i])|, paranoid, r)
         == Recover(crc, c, |FileOf(crc, Records(groups))|, paranoid, AllApplied(groups[i..], r))
    decreases |groups| - i
  {
    var records := Records(groups);
    if i == |groups| {
      assert records[..i] == records && groups[i..] == [];
    } else {
      FrontRead(crc, records, c, i);
      GroupApplied(groups[i], paranoid, r);
      FrontApplied(crc, groups, c, paranoid, With(r, groups[i]), i + 1);
      assert groups[i..][0] == groups[i] && groups[i..][1..] == groups[i + 1..];
    }
  }
}
