/** Reading a MANIFEST back, and what the store has written to it. */
module ManifestRecovery {
  import opened Format
  import opened Coding
  import opened LogFile
  import opened LogCrash
  import opened VersionEdits
  import opened Manifests

  /** What reading the MANIFEST has gathered; `error` says what stopped it. */
  datatype Progress = Progress(builder: Builder, logNumber: Option<nat>, prevLogNumber: Option<nat>,
                               nextFile: Option<nat>, lastSequence: Option<nat>, error: Option<string>)

  function Start(pointers: seq<Bytes>): Progress {
    Progress(Fresh(pointers), None, None, None, None, None)
  }

  function Later(a: Option<nat>, b: Option<nat>): Option<nat> {
    if b.Some? then b else a
  }

  /** One record.  Its counters are taken over even when it is the one that stops the reading. */
  function ReadRecord(name: Bytes, m: Progress, record: Bytes): Progress {
    var (edit, malformed) := DecodeFrom(EMPTY, record);
    var error := if malformed.Some? then malformed
                 else if edit.comparator.Some? && edit.comparator.value != name then Some("comparator mismatch")
                 else None;
    Progress(if error.None? then Apply(m.builder, edit) else m.builder,
            Later(m.logNumber, edit.logNumber), Later(m.prevLogNumber, edit.prevLogNumber),
            Later(m.nextFile, edit.nextFile), Later(m.lastSequence, edit.lastSequence), error)
  }

  /** The set of files with its counters. */
  datatype FileSet = FileSet(tree: Tree, pointers: seq<Bytes>, manifestNumber: nat, nextFile: nat, lastSequence: nat,
                             logNumber: nat, prevLogNumber: nat)

  datatype Outcome = Recovered(files: FileSet) | Failed(error: string)

  /** What `Recover` makes of the records of a MANIFEST. */
  function Finish(m: Progress): Outcome {
    if m.error.Some? then Failed(m.error.value)
    else if m.nextFile.None? then Failed("no meta-nextfile entry in descriptor")
    else if m.logNumber.None? then Failed("no meta-lognumber entry in descriptor")
    else if m.lastSequence.None? then Failed("no last-sequence-number entry in descriptor")
    else Recovered(FileSet(SaveTo(seq(NUM_LEVELS, l => {}), m.builder), m.builder.pointers,
                           m.nextFile.value, m.nextFile.value + 1, m.lastSequence.value, m.logNumber.value,
                           if m.prevLogNumber.Some? then m.prevLogNumber.value else 0))
  }

  /** Reading a MANIFEST from position p on; anything the reader reports stops it. */
  function ReadFile(crc: Crc, name: Bytes, c: Bytes, p: nat, m: Progress): Progress
    requires p <= |c|
    decreases |c| - p
  {
    var r := RecordAt(crc, c, p, false, []);
    if r.reports != [] then m.(error := Some("corruption"))
    else if r.record.None? then m
    else
      var m' := ReadRecord(name, m, r.record.value);
      if m'.error.Some? then m' else ReadFile(crc, name, c, r.next, m')
  }

  /** Replays a MANIFEST. */
  method Recover(crc: Crc, name: Bytes, file: Bytes, pointers: seq<Bytes>) returns (r: Outcome)
    ensures r == Finish(ReadFile(crc, name, file, 0, Start(pointers)))
  {
    var reader := new Reader(crc, file);
    var m := Start(pointers);
    ghost var goal := ReadFile(crc, name, file, 0, m);
    var more := true;
    while more
      invariant reader.Valid() && fresh(reader) && reader.crc == crc && reader.file == file
      invariant goal == if more then ReadFile(crc, name, file, reader.Position(), m) else m
      decreases more, |file| - reader.Position()
    {
      var reported := |reader.reports|;
      var record := reader.ReadRecord();
      if |reader.reports| > reported {
        m := m.(error := Some("corruption"));
        more := false;
      } else if record.None? {
        more := false;
      } else {
        m := ReadRecord(name, m, record.value);
        more := m.error.None?;
      }
    }
    r := Finish(m);
  }

  lemma ReadOne(crc: Crc, name: Bytes, c: Bytes, p: nat, m: Progress, record: Bytes,
                rest: seq<Bytes>) returns (next: nat)
    requires p <= |c| && ReadAll(crc, c, p) == ([record] + rest, []) && ReadRecord(name, m, record).error.None?
    ensures next <= |c| && ReadAll(crc, c, next) == (rest, [])
    ensures ReadFile(crc, name, c, p, m) == ReadFile(crc, name, c, next, ReadRecord(name, m, record))
  {
    var r := RecordAt(crc, c, p, false, []);
    next := r.next;
    if r.record.Some? {
      var tail := ReadAll(crc, c, r.next);
      assert ([record] + rest)[0] == record && ([record] + rest)[1..] == rest;
      assert ([r.record.value] + tail.0)[1..] == tail.0;
      assert |r.reports + tail.1| == |r.reports| + |tail.1|;
    }
  }

  lemma {:induction false} ReadNone(crc: Crc, name: Bytes, c: Bytes, p: nat, m: Progress)
    requires p <= |c| && ReadAll(crc, c, p) == ([], [])
    ensures ReadFile(crc, name, c, p, m) == m
  {
  }

  /** An edit as it was written: with its deleted files in some order. */
  datatype Written = Written(edit: Edit, order: seq<(nat, nat)>) {
    function Record(): Bytes {
      Flatten(AllBytes(Items(edit, order)))
    }

    ghost predicate Fits(name: Bytes) {
      && EditFits(edit) && ListsDeleted(order, edit.deletedFiles)
      && (edit.comparator.Some? ==> edit.comparator.value == name)
    }
  }

  function Records(ws: seq<Written>): (r: seq<Bytes>)
    ensures |r| == |ws| && forall i :: 0 <= i < |r| ==> r[i] == ws[i].Record()
  {
    seq(|ws|, i requires 0 <= i < |ws| => ws[i].Record())
  }

  function Edits(ws: seq<Written>): (r: seq<Edit>)
    ensures |r| == |ws| && forall i :: 0 <= i < |r| ==> r[i] == ws[i].edit
  {
    seq(|ws|, i requires 0 <= i < |ws| => ws[i].edit)
  }

  /** Reading an edit: it is applied, and its counters are taken over. */
  function With(m: Progress, e: Edit): Progress {
    Progress(Apply(m.builder, e), Later(m.logNumber, e.logNumber), Later(m.prevLogNumber, e.prevLogNumber),
             Later(m.nextFile, e.nextFile), Later(m.lastSequence, e.lastSequence), None)
  }

  function AllRead(m: Progress, es: seq<Edit>): Progress
    decreases |es|
  {
    if es == [] then m else AllRead(With(m, es[0]), es[1..])
  }

  lemma WrittenIsRead(name: Bytes, m: Progress, w: Written)
    requires w.Fits(name)
    ensures ReadRecord(name, m, w.Record()) == With(m, w.edit)
  {
    EditRoundTrip(w.edit, w.order, EMPTY);
    assert EMPTY.compactPointers + w.edit.compactPointers == w.edit.compactPointers;
  }

  lemma {:induction false} ReadsEdits(crc: Crc, name: Bytes, c: Bytes, p: nat, m: Progress, ws: seq<Written>)
    requires p <= |c| && m.error.None? && ReadAll(crc, c, p) == (Records(ws), []) && forall w :: w in ws ==> w.Fits(name)
    ensures ReadFile(crc, name, c, p, m) == AllRead(m, Edits(ws))
    decreases |ws|
  {
    if ws == [] {
      assert Records(ws) == [] && Edits(ws) == [];
      ReadNone(crc, name, c, p, m);
    } else {
      var w, rest := ws[0], ws[1..];
      WrittenIsRead(name, m, w);
      assert Records(ws) == [w.Record()] + Records(rest);
      var next := ReadOne(crc, name, c, p, m, w.Record(), Records(rest));
      ReadsEdits(crc, name, c, next, With(m, w.edit), rest);
      assert Edits(ws)[1..] == Edits(rest);
    }
  }

  /** The last value that some edit gave to a counter. */
  function Last(es: seq<Edit>, f: Edit -> Option<nat>): Option<nat> {
    if es == [] then None else Later(Last(es[..|es| - 1], f), f(es[|es| - 1]))
  }

  lemma {:induction false} AllReadSnoc(m: Progress, es: seq<Edit>, e: Edit)
    ensures AllRead(m, es + [e]) == With(AllRead(m, es), e)
    decreases |es|
  {
    if es == [] {
      assert (es + [e])[1..] == [];
    } else {
      AllReadSnoc(With(m, es[0]), es[1..], e);
      assert (es + [e])[1..] == es[1..] + [e];
    }
  }

  function LastLogNumber(es: seq<Edit>): Option<nat> { Last(es, (e: Edit) => e.logNumber) }
  function LastPrevLogNumber(es: seq<Edit>): Option<nat> { Last(es, (e: Edit) => e.prevLogNumber) }
  function LastNextFile(es: seq<Edit>): Option<nat> { Last(es, (e: Edit) => e.nextFile) }
  function LastSequenceGiven(es: seq<Edit>): Option<nat> { Last(es, (e: Edit) => e.lastSequence) }

  /** All edits gathered: one builder has them all, and each counter is the last one given. */
  function AllGathered(es: seq<Edit>, pointers: seq<Bytes>): Progress {
    Progress(AtOnce(es, pointers), LastLogNumber(es), LastPrevLogNumber(es), LastNextFile(es), LastSequenceGiven(es), None)
  }

  lemma {:induction false} AllReadIs(pointers: seq<Bytes>, es: seq<Edit>)
    ensures AllRead(Start(pointers), es) == AllGathered(es, pointers)
    decreases |es|
  {
    if es != [] {
      var front, last := es[..|es| - 1], es[|es| - 1];
      AllReadIs(pointers, front);
      AllReadSnoc(Start(pointers), front, last);
      assert es == front + [last];
    }
  }

  /** Recovery from a MANIFEST cut off at any byte gathers the edits wholly inside the cut and no
      part of any other. */
  lemma {:induction false} CutGathersPrefix(crc: Crc, name: Bytes, ws: seq<Written>, c: Bytes, pointers: seq<Bytes>)
    requires (forall w :: w in ws ==> w.Fits(name)) && c <= FileOf(crc, Records(ws))
    ensures ReadFile(crc, name, c, 0, Start(pointers)) == AllGathered(Edits(ws[..Whole(crc, Records(ws), |c|)]), pointers)
  {
    var m := Whole(crc, Records(ws), |c|);
    CutReadsPrefix(crc, Records(ws), c);
    assert Records(ws)[..m] == Records(ws[..m]);
    ReadsEdits(crc, name, c, 0, Start(pointers), ws[..m]);
    AllReadIs(pointers, Edits(ws[..m]));
  }

  /** What is recovered from gathered edits is the version they make one after another, with the
      last counters given; it fails exactly when the edits leave a counter open. */
  lemma {:induction false} GatheredIsStepwise(es: seq<Edit>, pointers: seq<Bytes>)
    requires NumbersFixFiles(es)
    ensures var r := Finish(AllGathered(es, pointers));
            && (r.Recovered? <==> LastNextFile(es).Some? && LastLogNumber(es).Some? && LastSequenceGiven(es).Some?)
            && (r.Recovered? ==>
                  && r.files.tree == Stepwise(es) && r.files.pointers == AtOnce(es, pointers).pointers
                  && Some(r.files.manifestNumber) == LastNextFile(es) && r.files.nextFile == r.files.manifestNumber + 1
                  && Some(r.files.logNumber) == LastLogNumber(es) && Some(r.files.lastSequence) == LastSequenceGiven(es))
  {
    AtOnceIsStepwise(es, pointers);
  }

  /** The edits of a prefix agree on what a number stands for when all edits do. */
  lemma PrefixFixes(ws: seq<Written>, m: nat)
    requires m <= |ws| && NumbersFixFiles(Edits(ws))
    ensures NumbersFixFiles(Edits(ws[..m]))
  {
    var all, some := Edits(ws), Edits(ws[..m]);
    forall e | e in some ensures e in all {
      var i :| 0 <= i < |some| && some[i] == e;
      assert all[i] == e;
    }
  }

  /** From a MANIFEST cut off at any byte: if the edits wholly inside the cut give every counter, the
      version they make one after another, with the last counters given; otherwise an error. */
  lemma {:induction false} CutRecoversPrefix(crc: Crc, name: Bytes, ws: seq<Written>, c: Bytes, pointers: seq<Bytes>)
    requires (forall w :: w in ws ==> w.Fits(name)) && c <= FileOf(crc, Records(ws)) && NumbersFixFiles(Edits(ws))
    ensures var es := Edits(ws[..Whole(crc, Records(ws), |c|)]);
            var r := Finish(ReadFile(crc, name, c, 0, Start(pointers)));
            && (r.Recovered? <==> LastNextFile(es).Some? && LastLogNumber(es).Some? && LastSequenceGiven(es).Some?)
            && (r.Recovered? ==>
                  && r.files.tree == Stepwise(es) && r.files.pointers == AtOnce(es, pointers).pointers
                  && Some(r.files.manifestNumber) == LastNextFile(es) && r.files.nextFile == r.files.manifestNumber + 1
                  && Some(r.files.logNumber) == LastLogNumber(es) && Some(r.files.lastSequence) == LastSequenceGiven(es))
  {
    var m := Whole(crc, Records(ws), |c|);
    CutGathersPrefix(crc, name, ws, c, pointers);
    PrefixFixes(ws, m);
    GatheredIsStepwise(Edits(ws[..m]), pointers);
  }

  /** `LogAndApply` completes an edit with the counters of the moment before it is written. */
  function Completed(e: Edit, logNumber: nat, prevLogNumber: nat, nextFile: nat, lastSequence: nat): Edit {
    e.(logNumber := if e.logNumber.Some? then e.logNumber else Some(logNumber),
       prevLogNumber := if e.prevLogNumber.Some? then e.prevLogNumber else Some(prevLogNumber),
       nextFile := Some(nextFile), lastSequence := Some(lastSequence))
  }

  /** Recovery right after an edit was logged finds what `LogAndApply` installed: the new version
      and pointers, and the counters of the moment. */
  lemma {:induction false} RecoversWhatWasInstalled(es: seq<Edit>, e: Edit, pointers: seq<Bytes>, logNumber: nat,
                                                    prevLogNumber: nat, nextFile: nat, lastSequence: nat)
    requires NumbersFixFiles(es + [Completed(e, logNumber, prevLogNumber, nextFile, lastSequence)])
    ensures var c := Completed(e, logNumber, prevLogNumber, nextFile, lastSequence);
            Finish(AllGathered(es + [c], pointers)) ==
              Recovered(FileSet(SaveTo(Stepwise(es), Apply(Fresh([]), c)),
                                PointersAfter(AtOnce(es, pointers).pointers, e.compactPointers),
                                nextFile, nextFile + 1, lastSequence, c.logNumber.value, c.prevLogNumber.value))
  {
    var c := Completed(e, logNumber, prevLogNumber, nextFile, lastSequence);
    var all := es + [c];
    assert all[..|all| - 1] == es && all[|all| - 1] == c;
    AtOnceIsStepwise(all, pointers);
  }

  /** Keeps the counter of file numbers ahead of a number in use. */
  function MarkFileNumberUsed(nextFile: nat, number: nat): (r: nat)
    ensures r > number && r >= nextFile && (r == nextFile <==> number < nextFile)
  {
    if nextFile <= number then number + 1 else nextFile
  }

  /** The two log numbers are in use, and no file gets their number again. */
  ghost predicate NumbersAhead(f: FileSet) {
    f.logNumber < f.nextFile && f.prevLogNumber < f.nextFile
  }

  /** Recovery marks the log numbers before it sets the counter, so that the marks are lost.  The
      counter is ahead of them if and only if the last one recorded was at or past them; then
      marking them again would change nothing. */
  lemma {:induction false} NumbersAheadExactly(es: seq<Edit>, pointers: seq<Bytes>)
    requires Finish(AllGathered(es, pointers)).Recovered?
    ensures var f, next := Finish(AllGathered(es, pointers)).files, LastNextFile(es).value;
            && (NumbersAhead(f) <==> LastLogNumber(es).value <= next &&
                                     (LastPrevLogNumber(es).Some? ==> LastPrevLogNumber(es).value <= next))
            && (NumbersAhead(f) <==> MarkFileNumberUsed(MarkFileNumberUsed(f.nextFile, f.prevLogNumber), f.logNumber) == f.nextFile)
  {
  }

  /** For any two numbers the wrong way round: an edit after which the counter falls behind. */
  lemma {:induction false} NumberGivenAgain(log: nat, next: nat, pointers: seq<Bytes>)
    requires next < log
    ensures var e := EMPTY.(logNumber := Some(log), nextFile := Some(next), lastSequence := Some(0));
            var r := Finish(AllGathered([e], pointers));
            r.Recovered? && r.files.nextFile <= r.files.logNumber && !NumbersAhead(r.files)
  {
    var e := EMPTY.(logNumber := Some(log), nextFile := Some(next), lastSequence := Some(0));
    assert [e][..0] == [];
    assert Last([], (e: Edit) => e.logNumber) == None;
  }

  /** No edit the version set completes does that: it records a counter beyond its log numbers. */
  lemma {:induction false} CompletedKeepsAhead(es: seq<Edit>, e: Edit, pointers: seq<Bytes>, logNumber: nat,
                                               prevLogNumber: nat, nextFile: nat, lastSequence: nat)
    requires NumbersFixFiles(es + [Completed(e, logNumber, prevLogNumber, nextFile, lastSequence)])
    requires var c := Completed(e, logNumber, prevLogNumber, nextFile, lastSequence);
             c.logNumber.value < nextFile && c.prevLogNumber.value < nextFile
    ensures var r := Finish(AllGathered(es + [Completed(e, logNumber, prevLogNumber, nextFile, lastSequence)], pointers));
            r.Recovered? && NumbersAhead(r.files)
  {
    RecoversWhatWasInstalled(es, e, pointers, logNumber, prevLogNumber, nextFile, lastSequence);
  }

  const NO_POINTERS: seq<Bytes> := seq(NUM_LEVELS, l => [])

  /** The pointers of a snapshot, levels without one left out. */
  function PointerItems(pointers: seq<Bytes>, l: nat): seq<(nat, Bytes)>
    requires l <= |pointers|
  {
    if l == 0 then []
    else if pointers[l - 1] == [] then PointerItems(pointers, l - 1)
    else PointerItems(pointers, l - 1) + [(l - 1, pointers[l - 1])]
  }

  lemma {:induction false} PointerItemsSet(pointers: seq<Bytes>, l: nat)
    requires l <= |pointers| == NUM_LEVELS
    ensures PointersAfter(NO_POINTERS, PointerItems(pointers, l)) == pointers[..l] + NO_POINTERS[l..]
  {
    if l == 0 {
      assert NO_POINTERS == pointers[..0] + NO_POINTERS[0..];
    } else {
      PointerItemsSet(pointers, l - 1);
      var items := PointerItems(pointers, l - 1);
      if pointers[l - 1] != [] {
        assert (items + [(l - 1, pointers[l - 1])])[..|items|] == items;
      }
      var before := pointers[..l - 1] + NO_POINTERS[l - 1..];
      assert before[l - 1 := pointers[l - 1]] == pointers[..l] + NO_POINTERS[l..];
    }
  }

  /** `WriteSnapshot`: one edit that makes the current version and pointers from nothing. */
  lemma {:induction false} SnapshotRebuilds(tree: Tree, pointers: seq<Bytes>, snapshot: Edit)
    requires |pointers| == NUM_LEVELS && snapshot.compactPointers == PointerItems(pointers, NUM_LEVELS)
    requires snapshot.deletedFiles == {} && forall l :: 0 <= l < NUM_LEVELS ==> AddedOn(snapshot, l) == tree[l]
    ensures Stepwise([snapshot]) == tree && AtOnce([snapshot], NO_POINTERS).pointers == pointers
  {
    PointerItemsSet(pointers, NUM_LEVELS);
    assert [snapshot][..0] == [];
    forall l | 0 <= l < NUM_LEVELS
      ensures Stepwise([snapshot])[l] == tree[l]
    {
      assert Stepwise([])[l] == {};
      assert DeletedOn(snapshot, l) == {};
    }
    assert pointers[..NUM_LEVELS] + NO_POINTERS[NUM_LEVELS..] == pointers;
  }
}
