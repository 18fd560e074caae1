/** Version edits: what one changes of a version, and its bytes in the MANIFEST. */
module VersionEdits {
  import opened Format
  import opened Coding

  const NUM_LEVELS: nat := 7

  /** What a version knows of a file. */
  datatype Meta = Meta(number: nat, size: nat, smallest: Bytes, largest: Bytes)

  datatype Edit = Edit(comparator: Option<Bytes>, logNumber: Option<nat>, prevLogNumber: Option<nat>,
                       nextFile: Option<nat>, lastSequence: Option<nat>, compactPointers: seq<(nat, Bytes)>,
                       deletedFiles: set<(nat, nat)>, newFiles: seq<(nat, Meta)>)

  const EMPTY: Edit := Edit(None, None, None, None, None, [], {}, [])

  /** `Clear` forgets everything but the compaction pointers. */
  function Cleared(e: Edit): Edit {
    EMPTY.(compactPointers := e.compactPointers)
  }

  /** One tagged item of an edit. */
  datatype Field =
    | Comparator(name: Bytes)
    | LogNumber(number: nat)
    | PrevLogNumber(number: nat)
    | NextFile(number: nat)
    | LastSequence(number: nat)
    | CompactPointer(level: nat, key: Bytes)
    | DeletedFile(level: nat, number: nat)
    | NewFile(level: nat, file: Meta)

  ghost predicate MetaFits(f: Meta) {
    f.number < TWO_64 && f.size < TWO_64 && |f.smallest| < TWO_32 && |f.largest| < TWO_32
  }

  /** The numbers fit their encodings. */
  ghost predicate Fits(f: Field) {
    match f
    case Comparator(name) => |name| < TWO_32
    case LogNumber(n) => n < TWO_64
    case PrevLogNumber(n) => n < TWO_64
    case NextFile(n) => n < TWO_64
    case LastSequence(n) => n < TWO_64
    case CompactPointer(level, key) => level < NUM_LEVELS && |key| < TWO_32
    case DeletedFile(level, n) => level < NUM_LEVELS && n < TWO_64
    case NewFile(level, file) => level < NUM_LEVELS && MetaFits(file)
  }

  function FieldBytes(f: Field): (r: Bytes)
    ensures r != []
  {
    match f
    case Comparator(name) => [1] + Prefixed(name)
    case LogNumber(n) => [2] + Varint(n)
    case PrevLogNumber(n) => [9] + Varint(n)
    case NextFile(n) => [3] + Varint(n)
    case LastSequence(n) => [4] + Varint(n)
    case CompactPointer(level, key) => [5] + Varint(level) + Prefixed(key)
    case DeletedFile(level, n) => [6] + Varint(level) + Varint(n)
    case NewFile(level, file) => [7] + (Varint(level) + MetaBytes(file))
  }

  function MetaBytes(f: Meta): Bytes {
    Varint(f.number) + (Varint(f.size) + (Prefixed(f.smallest) + Prefixed(f.largest)))
  }

  /** A number, or an item, off the front of some bytes. */
  datatype Taken<T> = Taken(value: T, rest: Bytes) | Missing

  function TakeVarint32(b: Bytes): (r: Taken<nat>)
    ensures r.Taken? ==> |r.rest| < |b|
  {
    match GetVarint32(b) case None => Missing case Some((v, n)) => Taken(v, b[n..])
  }

  function TakeVarint64(b: Bytes): (r: Taken<nat>)
    ensures r.Taken? ==> |r.rest| < |b|
  {
    match GetVarint64(b) case None => Missing case Some((v, n)) => Taken(v, b[n..])
  }

  function TakePrefixed(b: Bytes): (r: Taken<Bytes>)
    ensures r.Taken? ==> |r.rest| < |b|
  {
    match GetPrefixed(b) case None => Missing case Some((s, rest)) => Taken(s, rest)
  }

  function TakeLevel(b: Bytes): (r: Taken<nat>)
    ensures r.Taken? ==> |r.rest| < |b|
  {
    match TakeVarint32(b)
    case Missing => Missing
    case Taken(level, rest) => if level < NUM_LEVELS then Taken(level, rest) else Missing
  }

  function TakeMeta(b: Bytes): (r: Taken<Meta>)
    ensures r.Taken? ==> |r.rest| < |b|
  {
    match TakeVarint64(b)
    case Missing => Missing
    case Taken(number, b1) =>
      match TakeVarint64(b1)
      case Missing => Missing
      case Taken(size, b2) =>
        match TakePrefixed(b2)
        case Missing => Missing
        case Taken(smallest, b3) =>
          match TakePrefixed(b3)
          case Missing => Missing
          case Taken(largest, rest) => Taken(Meta(number, size, smallest, largest), rest)
  }

  datatype Next = Item(field: Field, rest: Bytes) | NoTag | Bad(message: string)

  /** What follows a tag. */
  function AfterTag(tag: nat, b: Bytes): (r: Next)
    ensures r.Item? ==> |r.rest| < |b|
  {
    if tag == 5 || tag == 6 || tag == 7 then
      (match TakeLevel(b)
       case Missing => Bad(Message(tag))
       case Taken(level, rest) => AfterLevel(tag, level, rest))
    else if tag == 1 then
      (match TakePrefixed(b) case Missing => Bad("comparator name") case Taken(s, rest) => Item(Comparator(s), rest))
    else AfterNumberTag(tag, b)
  }

  function AfterNumberTag(tag: nat, b: Bytes): (r: Next)
    ensures r.Item? ==> |r.rest| < |b|
  {
    if tag == 2 then
      (match TakeVarint64(b) case Missing => Bad("log number") case Taken(n, rest) => Item(LogNumber(n), rest))
    else if tag == 9 then
      (match TakeVarint64(b) case Missing => Bad("previous log number") case Taken(n, rest) => Item(PrevLogNumber(n), rest))
    else if tag == 3 then
      (match TakeVarint64(b) case Missing => Bad("next file number") case Taken(n, rest) => Item(NextFile(n), rest))
    else if tag == 4 then
      (match TakeVarint64(b) case Missing => Bad("last sequence number") case Taken(n, rest) => Item(LastSequence(n), rest))
    else Bad("unknown tag")
  }

  function Message(tag: nat): string {
    if tag == 5 then "compaction pointer" else if tag == 6 then "deleted file" else "new-file entry"
  }

  function AfterLevel(tag: nat, level: nat, b: Bytes): (r: Next)
    ensures r.Item? ==> |r.rest| < |b|
  {
    if tag == 5 then
      (match TakePrefixed(b) case Missing => Bad(Message(tag)) case Taken(key, rest) => Item(CompactPointer(level, key), rest))
    else if tag == 6 then
      (match TakeVarint64(b) case Missing => Bad(Message(tag)) case Taken(n, rest) => Item(DeletedFile(level, n), rest))
    else
      (match TakeMeta(b) case Missing => Bad(Message(tag)) case Taken(f, rest) => Item(NewFile(level, f), rest))
  }

  function NextField(b: Bytes): (r: Next)
    ensures r.Item? ==> |r.rest| < |b|
  {
    match TakeVarint32(b)
    case Missing => NoTag
    case Taken(tag, rest) => AfterTag(tag, rest)
  }

  /** What an item does to the edit. */
  function AddField(e: Edit, f: Field): Edit {
    match f
    case Comparator(name) => e.(comparator := Some(name))
    case LogNumber(n) => e.(logNumber := Some(n))
    case PrevLogNumber(n) => e.(prevLogNumber := Some(n))
    case NextFile(n) => e.(nextFile := Some(n))
    case LastSequence(n) => e.(lastSequence := Some(n))
    case CompactPointer(level, key) => e.(compactPointers := e.compactPointers + [(level, key)])
    case DeletedFile(level, n) => e.(deletedFiles := e.deletedFiles + {(level, n)})
    case NewFile(level, file) => e.(newFiles := e.newFiles + [(level, file)])
  }

  /** The loop of `DecodeFrom`: the edit, and what is wrong with the bytes if anything is. */
  function Decode(e: Edit, b: Bytes): (Edit, Option<string>)
    decreases |b|
  {
    match NextField(b)
    case NoTag => (e, if b == [] then None else Some("invalid tag"))
    case Bad(message) => (e, Some(message))
    case Item(f, rest) => Decode(AddField(e, f), rest)
  }

  function DecodeFrom(e: Edit, src: Bytes): (Edit, Option<string>) {
    Decode(Cleared(e), src)
  }

  lemma {:induction false} TakesVarint64(n: nat, rest: Bytes)
    requires n < TWO_64
    ensures TakeVarint64(Varint(n) + rest) == Taken(n, rest)
  {
    Varint64RoundTrip(n, rest);
    Dropped(Varint(n), rest);
  }

  lemma {:induction false} TakesVarint32(n: nat, rest: Bytes)
    requires n < TWO_32
    ensures TakeVarint32(Varint(n) + rest) == Taken(n, rest)
  {
    Varint32RoundTrip(n, rest);
    Dropped(Varint(n), rest);
  }

  lemma TakesPrefixed(s: Bytes, rest: Bytes)
    requires |s| < TWO_32
    ensures TakePrefixed(Prefixed(s) + rest) == Taken(s, rest)
  {
    PrefixedRoundTrip(s, rest);
  }

  lemma Dropped(a: Bytes, b: Bytes)
    ensures (a + b)[|a|..] == b
  {
  }

  lemma TakesTag(tag: byte, rest: Bytes)
    requires tag < 128
    ensures TakeVarint32([tag] + rest) == Taken(tag as nat, rest)
  {
    TakesVarint32(tag as nat, rest);
    assert Varint(tag as nat) == [tag];
  }

  lemma TakesMeta(f: Meta, rest: Bytes)
    requires MetaFits(f)
    ensures TakeMeta(MetaBytes(f) + rest) == Taken(f, rest)
  {
    var d := Prefixed(f.largest);
    var c := Prefixed(f.smallest) + d;
    var b := Varint(f.size) + c;
    Associate(Varint(f.number), b, rest);
    Associate(Varint(f.size), c, rest);
    Associate(Prefixed(f.smallest), d, rest);
    TakesVarint64(f.number, b + rest);
    TakesVarint64(f.size, c + rest);
    TakesPrefixed(f.smallest, d + rest);
    TakesPrefixed(f.largest, rest);
  }

  lemma {:induction false} TakesLevel(level: nat, rest: Bytes)
    requires level < NUM_LEVELS
    ensures TakeLevel(Varint(level) + rest) == Taken(level, rest)
  {
    TakesVarint32(level, rest);
  }

  lemma AfterLevelTag(tag: nat, level: nat, b: Bytes, rest: Bytes)
    requires (tag == 5 || tag == 6 || tag == 7) && TakeLevel(b) == Taken(level, rest)
    ensures AfterTag(tag, b) == AfterLevel(tag, level, rest)
  {
  }

  lemma {:induction false} LevelledParses(tag: byte, level: nat, body: Bytes, rest: Bytes)
    requires (tag == 5 || tag == 6 || tag == 7) && level < NUM_LEVELS
    ensures NextField([tag] + (Varint(level) + body) + rest) == AfterLevel(tag as nat, level, body + rest)
  {
    PlainParses(tag, Varint(level) + body, rest);
    Associate(Varint(level), body, rest);
    TakesLevel(level, body + rest);
    AfterLevelTag(tag as nat, level, Varint(level) + body + rest, body + rest);
  }

  lemma PlainParses(tag: byte, body: Bytes, rest: Bytes)
    requires tag < 128
    ensures NextField([tag] + body + rest) == AfterTag(tag as nat, body + rest)
  {
    Associate([tag], body, rest);
    TakesTag(tag, body + rest);
  }

  /** An item is read back from in front of anything. */
  lemma FieldRoundTrip(f: Field, rest: Bytes)
    requires Fits(f)
    ensures NextField(FieldBytes(f) + rest) == Item(f, rest)
  {
    match f
    case Comparator(name) => PlainParses(1, Prefixed(name), rest); TakesPrefixed(name, rest);
    case LogNumber(n) => PlainParses(2, Varint(n), rest); TakesVarint64(n, rest);
    case PrevLogNumber(n) => PlainParses(9, Varint(n), rest); TakesVarint64(n, rest);
    case NextFile(n) => PlainParses(3, Varint(n), rest); TakesVarint64(n, rest);
    case LastSequence(n) => PlainParses(4, Varint(n), rest); TakesVarint64(n, rest);
    case CompactPointer(level, key) =>
      Associate([5], Varint(level), Prefixed(key));
      LevelledParses(5, level, Prefixed(key), rest);
      TakesPrefixed(key, rest);
    case DeletedFile(level, n) =>
      Associate([6], Varint(level), Varint(n));
      LevelledParses(6, level, Varint(n), rest);
      TakesVarint64(n, rest);
    case NewFile(level, file) =>
      LevelledParses(7, level, MetaBytes(file), rest);
      TakesMeta(file, rest);
  }

  function AllBytes(fs: seq<Field>): (r: seq<Bytes>)
    ensures |r| == |fs| && forall i :: 0 <= i < |fs| ==> r[i] == FieldBytes(fs[i])
  {
    seq(|fs|, i requires 0 <= i < |fs| => FieldBytes(fs[i]))
  }

  /** An edit with some items added to it, in order. */
  function AddAll(e: Edit, fs: seq<Field>): Edit
    decreases |fs|
  {
    if fs == [] then e else AddAll(AddField(e, fs[0]), fs[1..])
  }

  lemma {:induction false} DecodeStep(e: Edit, f: Field, b: Bytes, rest: Bytes)
    requires NextField(b) == Item(f, rest)
    ensures Decode(e, b) == Decode(AddField(e, f), rest)
  {
  }

  lemma {:induction false} NothingLeft(e: Edit)
    ensures Decode(e, []) == (e, None)
  {
  }

  lemma FirstBytes(fs: seq<Field>)
    requires fs != []
    ensures Flatten(AllBytes(fs)) == FieldBytes(fs[0]) + Flatten(AllBytes(fs[1..]))
  {
    assert AllBytes(fs)[1..] == AllBytes(fs[1..]);
  }

  /** Items written one after another are read back one after another. */
  lemma {:induction false} FieldsRoundTrip(e: Edit, fs: seq<Field>)
    requires forall f :: f in fs ==> Fits(f)
    ensures Decode(e, Flatten(AllBytes(fs))) == (AddAll(e, fs), None)
    decreases |fs|
  {
    if fs == [] {
      NothingLeft(e);
    } else {
      FieldsRoundTrip(AddField(e, fs[0]), fs[1..]);
      FirstBytes(fs);
      FieldRoundTrip(fs[0], Flatten(AllBytes(fs[1..])));
      DecodeStep(e, fs[0], Flatten(AllBytes(fs)), Flatten(AllBytes(fs[1..])));
    }
  }

  /** An item that is written only when it is there. */
  function When(there: bool, f: Field): seq<Field> {
    if there then [f] else []
  }

  function ValueOf(o: Option<nat>): nat {
    if o.Some? then o.value else 0
  }

  function Heads(e: Edit): seq<Field> {
    When(e.comparator.Some?, Comparator(if e.comparator.Some? then e.comparator.value else []))
    + When(e.logNumber.Some?, LogNumber(ValueOf(e.logNumber)))
    + When(e.prevLogNumber.Some?, PrevLogNumber(ValueOf(e.prevLogNumber)))
    + When(e.nextFile.Some?, NextFile(ValueOf(e.nextFile)))
    + When(e.lastSequence.Some?, LastSequence(ValueOf(e.lastSequence)))
  }

  function Pointers(ps: seq<(nat, Bytes)>): seq<Field> {
    seq(|ps|, i requires 0 <= i < |ps| => CompactPointer(ps[i].0, ps[i].1))
  }

  function Deletions(ds: seq<(nat, nat)>): seq<Field> {
    seq(|ds|, i requires 0 <= i < |ds| => DeletedFile(ds[i].0, ds[i].1))
  }

  function Additions(fs: seq<(nat, Meta)>): seq<Field> {
    seq(|fs|, i requires 0 <= i < |fs| => NewFile(fs[i].0, fs[i].1))
  }

  /** The items of an edit as they are written; `order` lists the deleted files, each once. */
  function Items(e: Edit, order: seq<(nat, nat)>): seq<Field> {
    Heads(e) + Pointers(e.compactPointers) + Deletions(order) + Additions(e.newFiles)
  }

  ghost predicate ListsDeleted(order: seq<(nat, nat)>, deleted: set<(nat, nat)>) {
    forall d :: d in order <==> d in deleted
  }

  /** The buffer holds some items behind what it held at first. */
  ghost predicate Holds(r: Bytes, dst: Bytes, items: seq<Field>) {
    r == dst + Flatten(AllBytes(items))
  }

  lemma {:induction false} HoldsNone(dst: Bytes)
    ensures Holds(dst, dst, [])
  {
    assert AllBytes([]) == [];
    assert dst + [] == dst;
  }

  lemma {:induction false} PutItem(r: Bytes, dst: Bytes, items: seq<Field>, f: Field)
    requires Holds(r, dst, items)
    ensures Holds(r + FieldBytes(f), dst, items + [f])
  {
    assert AllBytes(items + [f]) == AllBytes(items) + [FieldBytes(f)];
    FlattenSnoc(AllBytes(items), FieldBytes(f));
    Associate(dst, Flatten(AllBytes(items)), FieldBytes(f));
  }

  /** Appends a tag and what it stands for. */
  method PutTagged(r0: Bytes, tag: byte, payload: Bytes) returns (r: Bytes)
    ensures r == r0 + ([tag] + payload)
  {
    r := r0 + [tag];
    Associate(r0, [tag], payload);
    r := r + payload;
  }

  method Append(r0: Bytes, f: Field, ghost dst: Bytes, ghost items: seq<Field>) returns (r: Bytes)
    requires Holds(r0, dst, items)
    ensures Holds(r, dst, items + [f])
  {
    PutItem(r0, dst, items, f);
    match f
    case Comparator(name) => r := PutTagged(r0, 1, Prefixed(name));
    case LogNumber(n) => r := PutTagged(r0, 2, Varint(n));
    case PrevLogNumber(n) => r := PutTagged(r0, 9, Varint(n));
    case NextFile(n) => r := PutTagged(r0, 3, Varint(n));
    case LastSequence(n) => r := PutTagged(r0, 4, Varint(n));
    case CompactPointer(level, key) =>
      Associate([5], Varint(level), Prefixed(key));
      r := PutTagged(r0, 5, Varint(level) + Prefixed(key));
    case DeletedFile(level, n) =>
      Associate([6], Varint(level), Varint(n));
      r := PutTagged(r0, 6, Varint(level) + Varint(n));
    case NewFile(level, file) => r := PutTagged(r0, 7, Varint(level) + MetaBytes(file));
  }

  method AppendNumber(r0: Bytes, there: bool, f: Field, ghost dst: Bytes, ghost items: seq<Field>) returns (r: Bytes)
    requires Holds(r0, dst, items)
    ensures Holds(r, dst, items + When(there, f))
  {
    r := r0;
    if there {
      r := Append(r, f, dst, items);
    } else {
      assert items + [] == items;
    }
  }

  /** The comparator's name and those of the counters that are set. */
  method EncodeHeads(e: Edit, dst: Bytes) returns (r: Bytes)
    ensures Holds(r, dst, Heads(e))
  {
    HoldsNone(dst);
    var name := Comparator(if e.comparator.Some? then e.comparator.value else []);
    r := AppendNumber(dst, e.comparator.Some?, name, dst, []);
    ghost var items := When(e.comparator.Some?, name);
    assert [] + items == items;
    r := AppendNumber(r, e.logNumber.Some?, LogNumber(ValueOf(e.logNumber)), dst, items);
    items := items + When(e.logNumber.Some?, LogNumber(ValueOf(e.logNumber)));
    r := AppendNumber(r, e.prevLogNumber.Some?, PrevLogNumber(ValueOf(e.prevLogNumber)), dst, items);
    items := items + When(e.prevLogNumber.Some?, PrevLogNumber(ValueOf(e.prevLogNumber)));
    r := AppendNumber(r, e.nextFile.Some?, NextFile(ValueOf(e.nextFile)), dst, items);
    items := items + When(e.nextFile.Some?, NextFile(ValueOf(e.nextFile)));
    r := AppendNumber(r, e.lastSequence.Some?, LastSequence(ValueOf(e.lastSequence)), dst, items);
  }

  lemma OneItemMore(items: seq<Field>, a: seq<Field>, b: seq<Field>, f: Field)
    requires b == a + [f]
    ensures items + b == items + a + [f]
  {
  }

  lemma OnePointerMore(ps: seq<(nat, Bytes)>, i: nat)
    requires i < |ps|
    ensures Pointers(ps[..i + 1]) == Pointers(ps[..i]) + [CompactPointer(ps[i].0, ps[i].1)]
  {
  }

  method EncodePointers(ps: seq<(nat, Bytes)>, r0: Bytes, ghost dst: Bytes, ghost items: seq<Field>) returns (r: Bytes)
    requires Holds(r0, dst, items)
    ensures Holds(r, dst, items + Pointers(ps))
  {
    r := r0;
    assert items + Pointers(ps[..0]) == items;
    for i := 0 to |ps|
      invariant Holds(r, dst, items + Pointers(ps[..i]))
    {
      var f := CompactPointer(ps[i].0, ps[i].1);
      OnePointerMore(ps, i);
      OneItemMore(items, Pointers(ps[..i]), Pointers(ps[..i + 1]), f);
      r := Append(r, f, dst, items + Pointers(ps[..i]));
    }
    assert ps[..|ps|] == ps;
  }

  method EncodeDeletions(ds: seq<(nat, nat)>, r0: Bytes, ghost dst: Bytes, ghost items: seq<Field>) returns (r: Bytes)
    requires Holds(r0, dst, items)
    ensures Holds(r, dst, items + Deletions(ds))
  {
    r := r0;
    assert items + Deletions(ds[..0]) == items;
    for i := 0 to |ds|
      invariant Holds(r, dst, items + Deletions(ds[..i]))
    {
      var f := DeletedFile(ds[i].0, ds[i].1);
      OneItemMore(items, Deletions(ds[..i]), Deletions(ds[..i + 1]), f);
      r := Append(r, f, dst, items + Deletions(ds[..i]));
    }
    assert ds[..|ds|] == ds;
  }

  method EncodeAdditions(fs: seq<(nat, Meta)>, r0: Bytes, ghost dst: Bytes, ghost items: seq<Field>) returns (r: Bytes)
    requires Holds(r0, dst, items)
    ensures Holds(r, dst, items + Additions(fs))
  {
    r := r0;
    assert items + Additions(fs[..0]) == items;
    for i := 0 to |fs|
      invariant Holds(r, dst, items + Additions(fs[..i]))
    {
      var f := NewFile(fs[i].0, fs[i].1);
      OneItemMore(items, Additions(fs[..i]), Additions(fs[..i + 1]), f);
      r := Append(r, f, dst, items + Additions(fs[..i]));
    }
    assert fs[..|fs|] == fs;
  }

  /** Appends the edit, item by item. */
  method EncodeTo(e: Edit, order: seq<(nat, nat)>, dst: Bytes) returns (r: Bytes)
    requires ListsDeleted(order, e.deletedFiles)
    ensures r == dst + Flatten(AllBytes(Items(e, order)))
  {
    r := EncodeHeads(e, dst);
    ghost var items := Heads(e);
    r := EncodePointers(e.compactPointers, r, dst, items);
    items := items + Pointers(e.compactPointers);
    r := EncodeDeletions(order, r, dst, items);
    items := items + Deletions(order);
    r := EncodeAdditions(e.newFiles, r, dst, items);
  }

  lemma {:induction false} AddAllAppend(e: Edit, a: seq<Field>, b: seq<Field>)
    ensures AddAll(e, a + b) == AddAll(AddAll(e, a), b)
    decreases |a|
  {
    if a == [] {
      assert a + b == b;
    } else {
      AddAllAppend(AddField(e, a[0]), a[1..], b);
      assert (a + b)[1..] == a[1..] + b;
    }
  }

  lemma {:induction false} AddPointers(e: Edit, ps: seq<(nat, Bytes)>)
    ensures AddAll(e, Pointers(ps)) == e.(compactPointers := e.compactPointers + ps)
    decreases |ps|
  {
    if ps == [] {
      assert e.compactPointers + ps == e.compactPointers;
    } else {
      assert Pointers(ps)[1..] == Pointers(ps[1..]);
      AddPointers(AddField(e, CompactPointer(ps[0].0, ps[0].1)), ps[1..]);
      assert e.compactPointers + [ps[0]] + ps[1..] == e.compactPointers + ps;
    }
  }

  lemma {:induction false} AddDeletions(e: Edit, ds: seq<(nat, nat)>)
    ensures AddAll(e, Deletions(ds)) == e.(deletedFiles := e.deletedFiles + set d | d in ds)
    decreases |ds|
  {
    if ds == [] {
      assert e.deletedFiles + (set d | d in ds) == e.deletedFiles;
    } else {
      assert Deletions(ds)[1..] == Deletions(ds[1..]);
      AddDeletions(AddField(e, DeletedFile(ds[0].0, ds[0].1)), ds[1..]);
      assert forall d :: d in ds <==> d == ds[0] || d in ds[1..];
      assert e.deletedFiles + {ds[0]} + (set d | d in ds[1..]) == e.deletedFiles + set d | d in ds;
    }
  }

  lemma {:induction false} AddAdditions(e: Edit, fs: seq<(nat, Meta)>)
    ensures AddAll(e, Additions(fs)) == e.(newFiles := e.newFiles + fs)
    decreases |fs|
  {
    if fs == [] {
      assert e.newFiles + fs == e.newFiles;
    } else {
      assert Additions(fs)[1..] == Additions(fs[1..]);
      AddAdditions(AddField(e, NewFile(fs[0].0, fs[0].1)), fs[1..]);
      assert e.newFiles + [fs[0]] + fs[1..] == e.newFiles + fs;
    }
  }

  /** The numbers of an edit fit their encodings. */
  ghost predicate EditFits(e: Edit) {
    && (e.comparator.Some? ==> |e.comparator.value| < TWO_32)
    && (e.logNumber.Some? ==> e.logNumber.value < TWO_64) && (e.prevLogNumber.Some? ==> e.prevLogNumber.value < TWO_64)
    && (e.nextFile.Some? ==> e.nextFile.value < TWO_64) && (e.lastSequence.Some? ==> e.lastSequence.value < TWO_64)
    && (forall p :: p in e.compactPointers ==> p.0 < NUM_LEVELS && |p.1| < TWO_32)
    && (forall d :: d in e.deletedFiles ==> d.0 < NUM_LEVELS && d.1 < TWO_64)
    && (forall f :: f in e.newFiles ==> f.0 < NUM_LEVELS && MetaFits(f.1))
  }

  lemma PointersFit(e: Edit)
    requires EditFits(e)
    ensures forall f :: f in Pointers(e.compactPointers) ==> Fits(f)
  {
    forall f | f in Pointers(e.compactPointers)
      ensures Fits(f)
    {
      var i :| 0 <= i < |e.compactPointers| && f == CompactPointer(e.compactPointers[i].0, e.compactPointers[i].1);
      assert e.compactPointers[i] in e.compactPointers;
    }
  }

  lemma DeletionsFit(e: Edit, order: seq<(nat, nat)>)
    requires EditFits(e) && ListsDeleted(order, e.deletedFiles)
    ensures forall f :: f in Deletions(order) ==> Fits(f)
  {
    forall f | f in Deletions(order)
      ensures Fits(f)
    {
      var i :| 0 <= i < |order| && f == DeletedFile(order[i].0, order[i].1);
      assert order[i] in order;
    }
  }

  lemma AdditionsFit(e: Edit)
    requires EditFits(e)
    ensures forall f :: f in Additions(e.newFiles) ==> Fits(f)
  {
    forall f | f in Additions(e.newFiles)
      ensures Fits(f)
    {
      var i :| 0 <= i < |e.newFiles| && f == NewFile(e.newFiles[i].0, e.newFiles[i].1);
      assert e.newFiles[i] in e.newFiles;
    }
  }

  lemma HeadsFit(e: Edit)
    requires EditFits(e)
    ensures forall f :: f in Heads(e) ==> Fits(f)
  {
  }

  lemma ItemsFit(e: Edit, order: seq<(nat, nat)>)
    requires EditFits(e) && ListsDeleted(order, e.deletedFiles)
    ensures forall f :: f in Items(e, order) ==> Fits(f)
  {
    HeadsFit(e);
    PointersFit(e);
    DeletionsFit(e, order);
    AdditionsFit(e);
  }

  /** Decoding the bytes of an edit into another one gives the edit back, behind the compaction
      pointers the other one had: `Clear` leaves those. */
  lemma EditRoundTrip(e: Edit, order: seq<(nat, nat)>, into: Edit)
    requires EditFits(e) && ListsDeleted(order, e.deletedFiles)
    ensures DecodeFrom(into, Flatten(AllBytes(Items(e, order))))
         == (e.(compactPointers := into.compactPointers + e.compactPointers), None)
  {
    ItemsFit(e, order);
    FieldsRoundTrip(Cleared(into), Items(e, order));
    AddItems(Cleared(into), e, order);
  }

  lemma {:induction false} AddFour(e: Edit, a: seq<Field>, b: seq<Field>, c: seq<Field>, d: seq<Field>)
    ensures AddAll(e, a + b + c + d) == AddAll(AddAll(AddAll(AddAll(e, a), b), c), d)
  {
    AddAllAppend(e, a + b + c, d);
    AddAllAppend(e, a + b, c);
    AddAllAppend(e, a, b);
  }

  /** Filling in all items of an edit. */
  lemma {:induction false} AddItems(e0: Edit, e: Edit, order: seq<(nat, nat)>)
    requires e0 == Cleared(e0) && ListsDeleted(order, e.deletedFiles)
    ensures AddAll(e0, Items(e, order)) == e.(compactPointers := e0.compactPointers + e.compactPointers)
  {
    AddFour(e0, Heads(e), Pointers(e.compactPointers), Deletions(order), Additions(e.newFiles));
    AddHeads(e0, e);
    var e1 := AddAll(e0, Heads(e));
    AddPointers(e1, e.compactPointers);
    var e2 := e1.(compactPointers := e1.compactPointers + e.compactPointers);
    AddDeletions(e2, order);
    assert {} + (set x | x in order) == e.deletedFiles;
    AddAdditions(e2.(deletedFiles := e.deletedFiles), e.newFiles);
    assert [] + e.newFiles == e.newFiles;
  }

  /** So it gives exactly the edit back if and only if the other one had none. */
  lemma ExactlyWhenNoPointers(e: Edit, order: seq<(nat, nat)>, into: Edit)
    requires EditFits(e) && ListsDeleted(order, e.deletedFiles)
    ensures DecodeFrom(into, Flatten(AllBytes(Items(e, order)))) == (e, None) <==> into.compactPointers == []
  {
    EditRoundTrip(e, order, into);
    if into.compactPointers != [] {
      assert |into.compactPointers + e.compactPointers| > |e.compactPointers|;
    } else {
      assert into.compactPointers + e.compactPointers == e.compactPointers;
    }
  }

  lemma {:induction false} AddWhen(e: Edit, front: seq<Field>, there: bool, f: Field)
    ensures AddAll(e, front + When(there, f)) == if there then AddField(AddAll(e, front), f) else AddAll(e, front)
  {
    AddAllAppend(e, front, When(there, f));
    var e' := AddAll(e, front);
    if there { assert AddAll(e', [f]) == AddAll(AddField(e', f), []); }
  }

  lemma {:induction false} AddHeads(e0: Edit, e: Edit)
    requires e0 == Cleared(e0)
    ensures AddAll(e0, Heads(e)) == Edit(e.comparator, e.logNumber, e.prevLogNumber, e.nextFile, e.lastSequence,
                                         e0.compactPointers, {}, [])
  {
    var f0 := Comparator(if e.comparator.Some? then e.comparator.value else []);
    var f1, f2 := LogNumber(ValueOf(e.logNumber)), PrevLogNumber(ValueOf(e.prevLogNumber));
    var f3, f4 := NextFile(ValueOf(e.nextFile)), LastSequence(ValueOf(e.lastSequence));
    var a := When(e.comparator.Some?, f0);
    var b := a + When(e.logNumber.Some?, f1);
    var c := b + When(e.prevLogNumber.Some?, f2);
    var d := c + When(e.nextFile.Some?, f3);
    assert [] + a == a;
    AddWhen(e0, [], e.comparator.Some?, f0);
    AddWhen(e0, a, e.logNumber.Some?, f1);
    AddWhen(e0, b, e.prevLogNumber.Some?, f2);
    AddWhen(e0, c, e.nextFile.Some?, f3);
    AddWhen(e0, d, e.lastSequence.Some?, f4);
  }
}
