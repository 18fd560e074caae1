/** Recovery of all log files in the order they were written: when it reports an error, and what
    of the history it keeps. */
module LogRecovery {
  import opened Format
  import opened Coding
  import opened LogFile
  import opened LogCrash
  import opened Batches
  import opened Recovery

  /** What recovery comes to: the tables written, the largest sequence number, and the status. */
  datatype Opened = Opened(tables: seq<seq<Numbered>>, maxSequence: nat, ok: bool)

  /** File by file.  The status is that of the last one: it replaces the one before. */
  function RecoverAll(crc: Crc, files: seq<Bytes>, paranoid: bool, full: seq<Numbered> -> bool): Opened {
    if files == [] then Opened([], 0, true)
    else
      AfterFile(crc, files[|files| - 1], paranoid, full, RecoverAll(crc, files[..|files| - 1], paranoid, full))
  }

  function AfterFile(crc: Crc, file: Bytes, paranoid: bool, full: seq<Numbered> -> bool, before: Opened): Opened {
    var r := Recover(crc, file, 0, paranoid, Recovered([], before.maxSequence, true));
    Opened(before.tables + FlushFrom(crc, file, 0, paranoid, full, None).tables, r.maxSequence, r.ok)
  }

  /** Replays the log files one after another. */
  method RecoverLogs(crc: Crc, files: seq<Bytes>, paranoid: bool, full: seq<Numbered> -> bool)
    returns (tables: seq<seq<Numbered>>, maxSequence: nat, ok: bool)
    ensures Opened(tables, maxSequence, ok) == RecoverAll(crc, files, paranoid, full)
  {
    tables, maxSequence, ok := [], 0, true;
    for i := 0 to |files|
      invariant Opened(tables, maxSequence, ok) == RecoverAll(crc, files[..i], paranoid, full)
    {
      var more;
      OneFileMore(crc, files, i, paranoid, full);
      more, maxSequence, ok := RecoverLogFile(crc, files[i], paranoid, maxSequence, full);
      tables := tables + more;
    }
    assert files[..|files|] == files;
  }

  lemma {:induction false} OneFileMore(crc: Crc, files: seq<Bytes>, i: nat, paranoid: bool, full: seq<Numbered> -> bool)
    requires i < |files|
    ensures RecoverAll(crc, files[..i + 1], paranoid, full)
         == AfterFile(crc, files[i], paranoid, full, RecoverAll(crc, files[..i], paranoid, full))
  {
    assert files[..i + 1][..i] == files[..i];
  }

  // When an error is noticed.

  ghost predicate AllClean(crc: Crc, files: seq<Bytes>) {
    forall file :: file in files ==> Clean(crc, file)
  }

  /** The status is OK if and only if the last file alone gives no cause to object. */
  lemma {:induction false} OpensExactly(crc: Crc, files: seq<Bytes>, paranoid: bool, full: seq<Numbered> -> bool)
    ensures RecoverAll(crc, files, paranoid, full).ok
       <==> !paranoid || files == [] || Clean(crc, files[|files| - 1])
  {
    if files != [] {
      var before := RecoverAll(crc, files[..|files| - 1], paranoid, full);
      FailsExactly(crc, files[|files| - 1], 0, paranoid, Recovered([], before.maxSequence, true));
    }
  }

  /** What paranoid checks are for: the store is not opened when there is an error in a log file. */
  ghost predicate ErrorNoticed(crc: Crc, files: seq<Bytes>, full: seq<Numbered> -> bool) {
    AllClean(crc, files) || !RecoverAll(crc, files, true, full).ok
  }

  /** They do so if and only if no file but the last gives cause to object, or the last one does. */
  lemma {:induction false} NoticesExactly(crc: Crc, files: seq<Bytes>, full: seq<Numbered> -> bool)
    requires files != []
    ensures ErrorNoticed(crc, files, full)
       <==> AllClean(crc, files[..|files| - 1]) || !Clean(crc, files[|files| - 1])
  {
    var front, last := files[..|files| - 1], files[|files| - 1];
    OpensExactly(crc, files, true, full);
    assert files == front + [last];
  }

  // What of the history is kept.

  /** What recovery of one file reads, what it keeps of that in tables, and what it loses. */
  function Read(crc: Crc, file: Bytes, paranoid: bool): seq<Numbered> {
    Recover(crc, file, 0, paranoid, Recovered([], 0, true)).adds
  }

  function Kept(crc: Crc, file: Bytes, paranoid: bool, full: seq<Numbered> -> bool): seq<Numbered> {
    Joined(FlushFrom(crc, file, 0, paranoid, full, None).tables)
  }

  function Lost(crc: Crc, file: Bytes, paranoid: bool, full: seq<Numbered> -> bool): seq<Numbered> {
    FlushFrom(crc, file, 0, paranoid, full, None).lost
  }

  lemma {:induction false} KeptOrLost(crc: Crc, file: Bytes, paranoid: bool, full: seq<Numbered> -> bool)
    ensures Read(crc, file, paranoid) == Kept(crc, file, paranoid, full) + Lost(crc, file, paranoid, full)
    ensures !paranoid || Clean(crc, file) ==> Lost(crc, file, paranoid, full) == []
  {
    WrittenOrLost(crc, file, 0, paranoid, full, None, 0);
    FailsExactly(crc, file, 0, paranoid, Recovered([], 0, true));
  }

  function KeptAll(crc: Crc, files: seq<Bytes>, paranoid: bool, full: seq<Numbered> -> bool): (r: seq<seq<Numbered>>)
    ensures |r| == |files| && forall i :: 0 <= i < |r| ==> r[i] == Kept(crc, files[i], paranoid, full)
  {
    seq(|files|, i requires 0 <= i < |files| => Kept(crc, files[i], paranoid, full))
  }

  /** The tables of all files hold what is kept of each, file after file. */
  lemma {:induction false} TablesHold(crc: Crc, files: seq<Bytes>, paranoid: bool, full: seq<Numbered> -> bool)
    ensures Joined(RecoverAll(crc, files, paranoid, full).tables) == Joined(KeptAll(crc, files, paranoid, full))
  {
    if files != [] {
      var front, last := files[..|files| - 1], files[|files| - 1];
      TablesHold(crc, front, paranoid, full);
      JoinedAppend(RecoverAll(crc, front, paranoid, full).tables, FlushFrom(crc, last, 0, paranoid, full, None).tables);
      KeptLast(crc, files, paranoid, full);
      JoinedSnoc(KeptAll(crc, front, paranoid, full), Kept(crc, last, paranoid, full));
    }
  }

  lemma KeptLast(crc: Crc, files: seq<Bytes>, paranoid: bool, full: seq<Numbered> -> bool)
    requires files != []
    ensures var front, last := files[..|files| - 1], files[|files| - 1];
            KeptAll(crc, files, paranoid, full) == KeptAll(crc, front, paranoid, full) + [Kept(crc, last, paranoid, full)]
  {
  }

  ghost predicate Distinct(s: seq<Numbered>) {
    forall i, j :: 0 <= i < j < |s| ==> s[i] != s[j]
  }

  /** Each of the pieces is a front part of what it was cut from. */
  ghost predicate FrontParts(kept: seq<seq<Numbered>>, whole: seq<seq<Numbered>>) {
    |kept| == |whole| && forall i :: 0 <= i < |kept| ==> kept[i] <= whole[i]
  }

  /** Nothing is kept behind a piece of which something is missing. */
  ghost predicate NoGap(kept: seq<seq<Numbered>>, whole: seq<seq<Numbered>>)
    requires |kept| == |whole|
  {
    forall i, j :: 0 <= i < j < |kept| ==> kept[i] == whole[i] || kept[j] == []
  }

  /** The pieces are together no longer than what they were cut from, and as long only if whole. */
  lemma {:induction false} PiecesShorter(kept: seq<seq<Numbered>>, whole: seq<seq<Numbered>>)
    requires FrontParts(kept, whole)
    ensures |Joined(kept)| <= |Joined(whole)|
    ensures |Joined(kept)| == |Joined(whole)| ==> kept == whole
  {
    if kept != [] {
      var n := |kept| - 1;
      PiecesShorter(kept[..n], whole[..n]);
      if |Joined(kept)| == |Joined(whole)| {
        assert |kept[n]| == |whole[n]| && kept[n] <= whole[n];
        assert kept[n] == whole[n];
        assert kept == kept[..n] + [kept[n]] && whole == whole[..n] + [whole[n]];
      }
    }
  }

  /** A last piece that is not empty belongs where it is only if all before it are whole. */
  lemma {:induction false} LastInPlace(kept: seq<Numbered>, last: seq<Numbered>, whole: seq<Numbered>,
                                       end: seq<Numbered>)
    requires last != [] && last <= end && |kept| <= |whole| && Distinct(whole + end) && kept + last <= whole + end
    ensures |kept| == |whole|
  {
    assert (kept + last)[|kept|] == last[0] && (whole + end)[|whole|] == end[0] == last[0];
    assert (whole + end)[|kept|] == (kept + last)[|kept|];
  }

  /** Joined, the pieces are a prefix of the whole if and only if there is no gap. */
  lemma {:induction false} PrefixExactly(kept: seq<seq<Numbered>>, whole: seq<seq<Numbered>>)
    requires FrontParts(kept, whole) && Distinct(Joined(whole))
    ensures Joined(kept) <= Joined(whole) <==> NoGap(kept, whole)
  {
    if kept != [] {
      var n := |kept| - 1;
      var kepts, wholes := kept[..n], whole[..n];
      PiecesShorter(kepts, wholes);
      DistinctFront(Joined(wholes), whole[n]);
      PrefixExactly(kepts, wholes);
      if kept[n] == [] {
        NothingBehind(kept, whole);
      } else {
        SomethingBehind(kept, whole);
      }
    }
  }

  lemma DistinctFront(a: seq<Numbered>, b: seq<Numbered>)
    requires Distinct(a + b)
    ensures Distinct(a)
  {
    assert forall i :: 0 <= i < |a| ==> (a + b)[i] == a[i];
  }

  lemma {:induction false} NothingBehind(kept: seq<seq<Numbered>>, whole: seq<seq<Numbered>>)
    requires FrontParts(kept, whole) && kept != [] && kept[|kept| - 1] == []
    requires |Joined(kept[..|kept| - 1])| <= |Joined(whole[..|kept| - 1])|
    ensures Joined(kept) <= Joined(whole) <==> Joined(kept[..|kept| - 1]) <= Joined(whole[..|kept| - 1])
    ensures NoGap(kept, whole) <==> NoGap(kept[..|kept| - 1], whole[..|kept| - 1])
  {
    var n := |kept| - 1;
    var a, b := Joined(kept[..n]), Joined(whole[..n]);
    assert Joined(kept) == a + [] == a && Joined(whole) == b + whole[n];
    assert (b + whole[n])[..|a|] == b[..|a|];
  }

  lemma {:induction false} SomethingBehind(kept: seq<seq<Numbered>>, whole: seq<seq<Numbered>>)
    requires FrontParts(kept, whole) && kept != [] && kept[|kept| - 1] != [] && Distinct(Joined(whole))
    ensures Joined(kept) <= Joined(whole) <==> NoGap(kept, whole)
  {
    var n := |kept| - 1;
    var kepts, wholes := kept[..n], whole[..n];
    PiecesShorter(kepts, wholes);
    if Joined(kept) <= Joined(whole) {
      LastInPlace(Joined(kepts), kept[n], Joined(wholes), whole[n]);
      assert forall i :: 0 <= i < n ==> kept[i] == kepts[i] == wholes[i] == whole[i];
    }
    if NoGap(kept, whole) {
      assert kepts == wholes;
    }
  }

  /** Of updates that were numbered one behind the other, whatever was read of each file being a
      front part of what was written to it, recovery keeps a prefix if and only if no file of
      which updates are missing is followed by one of which some are kept.  Missing are those not
      read, and those read and lost. */
  lemma {:induction false} KeepsPrefixExactly(crc: Crc, files: seq<Bytes>, paranoid: bool, full: seq<Numbered> -> bool,
                                              written: seq<seq<Numbered>>, first: nat, us: seq<Update>)
    requires |files| == |written| && Joined(written) == Number(first, us) && first + |us| <= TWO_64
    requires forall i :: 0 <= i < |files| ==> Read(crc, files[i], paranoid) <= written[i]
    ensures Joined(RecoverAll(crc, files, paranoid, full).tables) <= Number(first, us)
       <==> NoGap(KeptAll(crc, files, paranoid, full), written)
    ensures forall i :: 0 <= i < |files| ==>
              (Kept(crc, files[i], paranoid, full) == written[i] <==>
                 Read(crc, files[i], paranoid) == written[i] && Lost(crc, files[i], paranoid, full) == [])
  {
    forall i | 0 <= i < |files|
      ensures Kept(crc, files[i], paranoid, full) <= written[i]
      ensures Kept(crc, files[i], paranoid, full) == written[i] <==>
                Read(crc, files[i], paranoid) == written[i] && Lost(crc, files[i], paranoid, full) == []
    {
      KeptOrLost(crc, files[i], paranoid, full);
      FrontOfFront(Kept(crc, files[i], paranoid, full), Lost(crc, files[i], paranoid, full),
                   Read(crc, files[i], paranoid), written[i]);
    }
    TablesHold(crc, files, paranoid, full);
    NumbersDistinct(first, us);
    PrefixExactly(KeptAll(crc, files, paranoid, full), written);
  }

  lemma NumbersDistinct(first: nat, us: seq<Update>)
    requires first + |us| <= TWO_64
    ensures Distinct(Number(first, us))
  {
  }

  lemma FrontOfFront(kept: seq<Numbered>, lost: seq<Numbered>, read: seq<Numbered>, written: seq<Numbered>)
    requires read == kept + lost && read <= written
    ensures kept <= written && (kept == written <==> read == written && lost == [])
  {
    assert kept == written[..|kept|];
    if kept == written { assert |lost| == 0; }
  }

  // What is read of a file that was cut or damaged.

  lemma {:induction false} AddsFront(groups: seq<Group>, m: nat)
    requires m <= |groups|
    ensures Adds(groups[..m]) <= Adds(groups)
  {
    if m > 0 {
      AddsFront(groups[1..], m - 1);
      assert groups[..m][1..] == groups[1..][..m - 1];
    }
  }

  /** Of a file cut anywhere all whole groups are read, and nothing is lost. */
  lemma {:induction false} CutReads(crc: Crc, groups: seq<Group>, c: Bytes, paranoid: bool, full: seq<Numbered> -> bool)
    requires (forall g :: g in groups ==> g.Committed()) && c <= FileOf(crc, Records(groups))
    ensures var m := Whole(crc, Records(groups), |c|);
            && Read(crc, c, paranoid) == Adds(groups[..m]) <= Adds(groups)
            && Kept(crc, c, paranoid, full) == Adds(groups[..m]) && Clean(crc, c)
  {
    var m := Whole(crc, Records(groups), |c|);
    RecoversWholeGroups(crc, groups, c, paranoid, 0);
    RecoversWholeGroups(crc, groups, c, true, 0);
    FailsExactly(crc, c, 0, true, Recovered([], 0, true));
    AddsFront(groups, m);
    KeptOrLost(crc, c, paranoid, full);
  }

  /** Of a file damaged behind its first m groups, so that the reader drops something there, those
      are read and no others, with paranoid checks. */
  lemma {:induction false} DamageEndsReading(crc: Crc, groups: seq<Group>, m: nat, c: Bytes)
    requires (forall g :: g in groups ==> g.Committed()) && m <= |groups|
    requires FileOf(crc, Records(groups[..m])) <= c
    requires RecordAt(crc, c, |FileOf(crc, Records(groups[..m]))|, false, []).reports != []
    ensures Read(crc, c, true) == Adds(groups[..m]) <= Adds(groups) && !Clean(crc, c)
  {
    var r := Recovered([], 0, true);
    assert Records(groups[..m])[..0] == [] && groups[..m][0..] == groups[..m];
    FrontApplied(crc, groups[..m], c, true, r, 0);
    AllAppliedIs(groups[..m], r);
    AddsFront(groups, m);
    FailsExactly(crc, c, 0, true, r);
  }

  // An error that goes unnoticed.

  /** A log file of one group and a record too small to be a batch, and a second one of one group. */
  function BadFile(crc: Crc, g: Group): Bytes {
    FileOf(crc, [g.Record(), []])
  }

  function GoodFile(crc: Crc, h: Group): Bytes {
    FileOf(crc, [h.Record()])
  }

  lemma {:induction false} BadFileReads(crc: Crc, g: Group)
    ensures var c, p := BadFile(crc, g), |FileOf(crc, [g.Record()])|;
            && p <= |c| && RecordAt(crc, c, 0, false, []) == Reading(Some(g.Record()), p, [])
            && RecordAt(crc, c, p, false, []) == Reading(Some([]), |c|, [])
  {
    var records := [g.Record(), []];
    assert records[..0] == [] && records[..1] == [g.Record()] && records[..2] == records;
    FrontRead(crc, records, BadFile(crc, g), 0);
    FrontRead(crc, records, BadFile(crc, g), 1);
  }

  lemma {:induction false} GoodFileReads(crc: Crc, h: Group)
    ensures RecordAt(crc, GoodFile(crc, h), 0, false, []) == Reading(Some(h.Record()), |GoodFile(crc, h)|, [])
    ensures RecordAt(crc, GoodFile(crc, h), |GoodFile(crc, h)|, false, []) == Reading(None, |GoodFile(crc, h)|, [])
  {
    var records := [h.Record()];
    assert records[..0] == [] && records[..1] == records;
    FrontRead(crc, records, GoodFile(crc, h), 0);
    NothingAtEnd(crc, GoodFile(crc, h));
  }

  lemma {:induction false} BadFileKeeps(crc: Crc, g: Group, full: seq<Numbered> -> bool)
    requires g.Committed()
    ensures !Clean(crc, BadFile(crc, g)) && Read(crc, BadFile(crc, g), true) == g.Numbers()
    ensures FlushFrom(crc, BadFile(crc, g), 0, true, full, None)
         == if full(g.Numbers()) then Flushed([g.Numbers()], []) else Flushed([], g.Numbers())
  {
    var c, p, mem := BadFile(crc, g), |FileOf(crc, [g.Record()])|, Some(g.Numbers());
    BadFileReads(crc, g);
    RecordParses(g);
    assert Pending(None) + g.Numbers() == g.Numbers();
    FlushGoesOn(crc, c, 0, true, full, None, g.Record(), p, [], mem);
    FlushGoesOn(crc, c, p, true, full, mem, [], |c|, [], mem);
    FlushGoesOn(crc, c, p, true, full, None, [], |c|, [], None);
    WrittenOrLost(crc, c, 0, true, full, None, 0);
    JoinedSnoc([], g.Numbers());
    ShortRecordFails(crc, c, p, |c|);
    CleanStep(crc, c, 0, g.Record(), p, []);
  }

  lemma {:induction false} ShortRecordFails(crc: Crc, c: Bytes, p: nat, next: nat)
    requires p <= |c| && RecordAt(crc, c, p, false, []) == Reading(Some([]), next, [])
    ensures !CleanFrom(crc, c, p)
  {
    CleanStep(crc, c, p, [], next, []);
  }

  lemma {:induction false} GoodFileKeeps(crc: Crc, h: Group, full: seq<Numbered> -> bool)
    requires h.Committed()
    ensures Clean(crc, GoodFile(crc, h)) && Read(crc, GoodFile(crc, h), true) == h.Numbers()
    ensures FlushFrom(crc, GoodFile(crc, h), 0, true, full, None) == Flushed([h.Numbers()], [])
  {
    var c, mem := GoodFile(crc, h), Some(h.Numbers());
    GoodFileReads(crc, h);
    RecordParses(h);
    assert Pending(None) + h.Numbers() == h.Numbers();
    FlushGoesOn(crc, c, 0, true, full, None, h.Record(), |c|, [], mem);
    FlushStops(crc, c, |c|, true, full, mem);
    FlushStops(crc, c, |c|, true, full, None);
    WrittenOrLost(crc, c, 0, true, full, None, 0);
    JoinedSnoc([], h.Numbers());
    CleanStep(crc, c, 0, h.Record(), |c|, []);
  }

  /** Two groups, numbered one behind the other, and an error between them in the older of two log
      files: with paranoid checks the store is opened, with the second group and without the first
      one unless a table had been written of it before.  Then what is kept is no prefix. */
  lemma {:induction false} ForgottenError(crc: Crc, g: Group, h: Group, full: seq<Numbered> -> bool)
    requires g.Committed() && h.Committed() && h.before == g.Last()
    ensures var o := RecoverAll(crc, [BadFile(crc, g), GoodFile(crc, h)], true, full);
            && o.ok && !ErrorNoticed(crc, [BadFile(crc, g), GoodFile(crc, h)], full)
            && o.tables == (if full(g.Numbers()) then [g.Numbers()] else []) + [h.Numbers()]
            && (g.updates != [] && h.updates != [] && !full(g.Numbers()) ==>
                  !(Joined(o.tables) <= Number(g.before + 1, g.updates + h.updates)))
  {
    var a, b := BadFile(crc, g), GoodFile(crc, h);
    BadFileKeeps(crc, g, full);
    GoodFileKeeps(crc, h, full);
    TwoFiles(crc, a, b, true, full);
    OpensExactly(crc, [a, b], true, full);
    assert a in [a, b];
    if g.updates != [] && h.updates != [] && !full(g.Numbers()) { HoleShows(g, h); }
  }

  lemma {:induction false} TwoFiles(crc: Crc, a: Bytes, b: Bytes, paranoid: bool, full: seq<Numbered> -> bool)
    ensures RecoverAll(crc, [a, b], paranoid, full).tables
         == FlushFrom(crc, a, 0, paranoid, full, None).tables + FlushFrom(crc, b, 0, paranoid, full, None).tables
  {
    assert [a, b][..1] == [a] && [a, b][..0] == [a][..0] == [];
    var first := FlushFrom(crc, a, 0, paranoid, full, None).tables;
    assert RecoverAll(crc, [a], paranoid, full) == AfterFile(crc, a, paranoid, full, Opened([], 0, true));
    assert [] + first == first;
  }

  lemma {:induction false} HoleShows(g: Group, h: Group)
    requires g.Committed() && h.Committed() && h.before == g.Last() && g.updates != [] && h.updates != []
    ensures !(Joined([h.Numbers()]) <= Number(g.before + 1, g.updates + h.updates))
  {
    JoinedSnoc([], h.Numbers());
    NumberSplit(g.before + 1, g.updates, h.updates);
    assert Number(g.before + 1, g.updates + h.updates)[0] == g.Numbers()[0] != h.Numbers()[0];
  }
}
