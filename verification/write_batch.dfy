/** Write batches: a header of sequence number and count, then one tagged record an update. */
module Batches {
  import opened Format
  import opened Coding

  const BATCH_HEADER: nat := 12

  datatype Update = Write(key: Bytes, value: Bytes) | Erase(key: Bytes)

  datatype Status = Ok | Corruption(reason: string)

  predicate Encodable(u: Update) {
    |u.key| < TWO_32 && (u.Write? ==> |u.value| < TWO_32)
  }

  ghost predicate AllEncodable(us: seq<Update>) {
    forall u :: u in us ==> Encodable(u)
  }

  function Encode(u: Update): (r: Bytes)
    ensures r != []
  {
    match u
    case Write(key, value) => [1] + Prefixed(key) + Prefixed(value)
    case Erase(key) => [0] + Prefixed(key)
  }

  function Encodings(us: seq<Update>): (r: seq<Bytes>)
    ensures |r| == |us| && forall i :: 0 <= i < |us| ==> r[i] == Encode(us[i])
  {
    seq(|us|, i requires 0 <= i < |us| => Encode(us[i]))
  }

  function Body(us: seq<Update>): Bytes {
    Flatten(Encodings(us))
  }

  lemma BodyCons(us: seq<Update>)
    requires us != []
    ensures Body(us) == Encode(us[0]) + Body(us[1..])
  {
    assert Encodings(us)[1..] == Encodings(us[1..]);
  }

  lemma BodyAppend(a: seq<Update>, b: seq<Update>)
    ensures Body(a + b) == Body(a) + Body(b)
  {
    assert Encodings(a + b) == Encodings(a) + Encodings(b);
    FlattenAppend(Encodings(a), Encodings(b));
  }

  /** The bytes of a batch that holds `us`, to be applied from `sequence` on. */
  function Rep(sequence: nat, us: seq<Update>): (r: Bytes)
    ensures |r| >= BATCH_HEADER
  {
    Fixed64(sequence) + Fixed32(|us|) + Body(us)
  }

  function Sequence(rep: Bytes): nat
    requires |rep| >= BATCH_HEADER
  {
    Unfixed(rep[..8]) % TWO_64
  }

  /** The count, a 32-bit word read as a signed integer. */
  function Count(rep: Bytes): int
    requires |rep| >= BATCH_HEADER
  {
    var n := Unfixed(rep[8..12]) % TWO_32;
    if n < 0x8000_0000 then n else n - TWO_32
  }

  /** The parts of a batch's bytes. */
  lemma RepParts(sequence: nat, us: seq<Update>)
    ensures Rep(sequence, us)[..8] == Fixed64(sequence)
    ensures Rep(sequence, us)[8..12] == Fixed32(|us|)
    ensures Rep(sequence, us)[BATCH_HEADER..] == Body(us)
  {
    Parts(Fixed64(sequence), Fixed32(|us|), Body(us));
  }

  lemma SequenceRead(rep: Bytes, sequence: nat)
    requires |rep| >= BATCH_HEADER && sequence < TWO_64 && rep[..8] == Fixed64(sequence)
    ensures Sequence(rep) == sequence
  {
    ReadsFixed64(rep[..8], sequence);
  }

  lemma CountRead(rep: Bytes, n: nat)
    requires |rep| >= BATCH_HEADER && n < 0x8000_0000 && rep[8..12] == Fixed32(n)
    ensures Count(rep) == n
  {
    ReadsFixed32(rep[8..12], n);
  }

  lemma RepFields(sequence: nat, us: seq<Update>)
    requires sequence < TWO_64 && |us| < 0x8000_0000
    ensures Sequence(Rep(sequence, us)) == sequence
    ensures Count(Rep(sequence, us)) == |us|
    ensures Rep(sequence, us)[BATCH_HEADER..] == Body(us)
    ensures Rep(sequence, us)[..8] == Fixed64(sequence)
    ensures Rep(sequence, us)[8..12] == Fixed32(|us|)
  {
    RepParts(sequence, us);
    SequenceRead(Rep(sequence, us), sequence);
    CountAndBody(sequence, us);
  }

  lemma CountAndBody(sequence: nat, us: seq<Update>)
    requires |us| < 0x8000_0000
    ensures Count(Rep(sequence, us)) == |us| && Rep(sequence, us)[BATCH_HEADER..] == Body(us)
  {
    RepParts(sequence, us);
    CountRead(Rep(sequence, us), |us|);
  }

  datatype Scan = Scan(update: Update, rest: Bytes) | Malformed(reason: string)

  /** The first record of a non-empty body. */
  function Next(input: Bytes): (r: Scan)
    requires input != []
    ensures r.Scan? ==> |r.rest| < |input|
  {
    if input[0] == 1 then
      match GetPrefixed(input[1..])
      case None => Malformed("bad WriteBatch Put")
      case Some((key, rest)) =>
        (match GetPrefixed(rest)
         case None => Malformed("bad WriteBatch Put")
         case Some((value, rest)) => Scan(Write(key, value), rest))
    else if input[0] == 0 then
      match GetPrefixed(input[1..])
      case None => Malformed("bad WriteBatch Delete")
      case Some((key, rest)) => Scan(Erase(key), rest)
    else Malformed("unknown WriteBatch tag")
  }

  lemma NextOfWrite(key: Bytes, value: Bytes, rest: Bytes)
    requires |key| < TWO_32 && |value| < TWO_32
    ensures Next([1] + (Prefixed(key) + (Prefixed(value) + rest))) == Scan(Write(key, value), rest)
  {
    PrefixedRoundTrip(key, Prefixed(value) + rest);
    PrefixedRoundTrip(value, rest);
    assert ([1] + (Prefixed(key) + (Prefixed(value) + rest)))[1..] == Prefixed(key) + (Prefixed(value) + rest);
  }

  lemma NextOfErase(key: Bytes, rest: Bytes)
    requires |key| < TWO_32
    ensures Next([0] + (Prefixed(key) + rest)) == Scan(Erase(key), rest)
  {
    PrefixedRoundTrip(key, rest);
    assert ([0] + (Prefixed(key) + rest))[1..] == Prefixed(key) + rest;
  }

  lemma NextOfEncoded(u: Update, rest: Bytes)
    requires Encodable(u)
    ensures Next(Encode(u) + rest) == Scan(u, rest)
  {
    match u
    case Write(key, value) =>
      var k, v := Prefixed(key), Prefixed(value);
      Associate([1] + k, v, rest);
      Associate([1], k, v + rest);
      NextOfWrite(key, value, rest);
    case Erase(key) =>
      Associate([0], Prefixed(key), rest);
      NextOfErase(key, rest);
  }

  /** The updates of a body up to its end or its first malformed record. */
  function ParseBody(input: Bytes): (seq<Update>, Status) {
    if input == [] then ([], Ok)
    else
      match Next(input)
      case Malformed(reason) => ([], Corruption(reason))
      case Scan(u, rest) => var (us, status) := ParseBody(rest); ([u] + us, status)
  }

  /** What the bytes of a batch hand to a handler, and the status they end with. */
  function ParseBatch(rep: Bytes): (seq<Update>, Status) {
    if |rep| < BATCH_HEADER then ([], Corruption("malformed WriteBatch (too small)"))
    else
      var (us, status) := ParseBody(rep[BATCH_HEADER..]);
      (us, if status.Ok? && |us| != Count(rep) then Corruption("WriteBatch has wrong count") else status)
  }

  lemma {:induction false} ParseStep(input: Bytes, u: Update, rest: Bytes, us: seq<Update>)
    requires input != [] && Next(input) == Scan(u, rest) && ParseBody(rest) == (us, Ok)
    ensures ParseBody(input) == ([u] + us, Ok)
  {
  }

  /** The body of a non-empty list starts with its first update. */
  lemma FirstOfBody(us: seq<Update>)
    requires us != [] && Encodable(us[0])
    ensures Body(us) != [] && Next(Body(us)) == Scan(us[0], Body(us[1..]))
  {
    BodyCons(us);
    NextOfEncoded(us[0], Body(us[1..]));
  }

  lemma {:induction false} BodyRoundTrip(us: seq<Update>)
    requires AllEncodable(us)
    ensures ParseBody(Body(us)) == (us, Ok)
  {
    if us == [] {
      assert Body(us) == [];
    } else {
      assert us[0] in us && forall u :: u in us[1..] ==> u in us;
      var rest := us[1..];
      assert us == [us[0]] + rest;
      BodyRoundTrip(rest);
      FirstOfBody(us);
      ParseStep(Body(us), us[0], Body(rest), rest);
    }
  }

  lemma MoveOver<T>(a: seq<T>, x: T, b: seq<T>)
    ensures a + ([x] + b) == a + [x] + b
  {
  }

  /** What was parsed before, in front of what is parsed next. */
  function Behind(done: seq<Update>, p: (seq<Update>, Status)): (seq<Update>, Status) {
    (done + p.0, p.1)
  }

  /** A batch is read back as it was filled. */
  lemma BatchRoundTrip(sequence: nat, us: seq<Update>)
    requires AllEncodable(us) && sequence < TWO_64 && |us| < 0x8000_0000
    ensures ParseBatch(Rep(sequence, us)) == (us, Ok) && Sequence(Rep(sequence, us)) == sequence
  {
    RepFields(sequence, us);
    BodyRoundTrip(us);
  }

  /** What a memtable is given: an update with its sequence number. */
  datatype Numbered = Numbered(sequence: nat, update: Update)

  function Number(sequence: nat, us: seq<Update>): (r: seq<Numbered>)
    ensures |r| == |us|
  {
    seq(|us|, i requires 0 <= i < |us| => Numbered((sequence + i) % TWO_64, us[i]))
  }

  /** The number the update after `us` is given. */
  function SequenceAfter(sequence: nat, us: seq<Update>): nat {
    (sequence + |us|) % TWO_64
  }

  lemma NumberMore(mem: seq<Numbered>, sequence: nat, us: seq<Update>, u: Update)
    ensures mem + Number(sequence, us) + [Numbered(SequenceAfter(sequence, us), u)] == mem + Number(sequence, us + [u])
    ensures (SequenceAfter(sequence, us) + 1) % TWO_64 == SequenceAfter(sequence, us + [u])
  {
    assert Number(sequence, us) + [Numbered((sequence + |us|) % TWO_64, u)] == Number(sequence, us + [u]);
  }

  /** The handler that applies a batch to a memtable. */
  class MemTableInserter {
    var sequence: nat
    var mem: seq<Numbered>

    constructor (sequence: nat, mem: seq<Numbered>)
      requires sequence < TWO_64
      ensures this.sequence == sequence && this.mem == mem
    {
      this.sequence, this.mem := sequence, mem;
    }

    method Put(key: Bytes, value: Bytes)
      modifies this
      ensures mem == old(mem) + [Numbered(old(sequence), Write(key, value))]
      ensures sequence == (old(sequence) + 1) % TWO_64
    {
      mem := mem + [Numbered(sequence, Write(key, value))];
      sequence := (sequence + 1) % TWO_64;
    }

    method Delete(key: Bytes)
      modifies this
      ensures mem == old(mem) + [Numbered(old(sequence), Erase(key))]
      ensures sequence == (old(sequence) + 1) % TWO_64
    {
      mem := mem + [Numbered(sequence, Erase(key))];
      sequence := (sequence + 1) % TWO_64;
    }

    method Apply(u: Update)
      modifies this
      ensures mem == old(mem) + [Numbered(old(sequence), u)]
      ensures sequence == (old(sequence) + 1) % TWO_64
    {
      match u
      case Write(key, value) => Put(key, value);
      case Erase(key) => Delete(key);
    }
  }

  lemma BatchesJoined(start: nat, a: seq<Update>, b: seq<Update>)
    ensures Fixed64(start) + Fixed32(|a| + |b|) + Body(a) + Body(b) == Rep(start, a + b)
  {
    BodyAppend(a, b);
    Associate(Fixed64(start) + Fixed32(|a + b|), Body(a), Body(b));
  }

  class WriteBatch {
    var rep: Bytes
    ghost var start: nat             // the sequence number in the header
    ghost var held: seq<Update>      // the updates collected so far

    ghost predicate Valid()
      reads this
    {
      rep == Rep(start, held) && start < TWO_64 && |held| < 0x8000_0000
    }

    constructor ()
      ensures Valid() && start == 0 && held == []
    {
      rep := seq(BATCH_HEADER, i => 0);
      start, held := 0, [];
      new;
      assert Fixed64(0) == seq(8, i => 0) && Fixed32(0) == seq(4, i => 0) by {
        assert Fixed(0, 2) == [0, 0] && Fixed(0, 4) == [0, 0, 0, 0] && Fixed(0, 6) == [0, 0, 0, 0, 0, 0];
      }
    }

    /** Takes over the bytes of a log record, whatever they are. */
    method SetContents(contents: Bytes)
      requires |contents| >= BATCH_HEADER
      modifies this`rep
      ensures rep == contents
    {
      rep := contents;
    }

    method SetCount(n: nat)
      requires Valid() && n < 0x8000_0000
      modifies this`rep
      ensures rep == Fixed64(start) + Fixed32(n) + Body(held)
    {
      RepParts(start, held);
      rep := rep[..8] + Fixed32(n) + rep[12..];
    }

    method SetSequence(sequence: nat)
      requires Valid() && sequence < TWO_64
      modifies this`rep, this`start
      ensures Valid() && start == sequence
    {
      RepParts(start, held);
      assert rep[8..] == rep[8..12] + rep[12..];
      rep := Fixed64(sequence) + rep[8..];
      start := sequence;
      assert rep == Rep(sequence, held);
    }

    method Put(key: Bytes, value: Bytes)
      requires Valid() && |held| < 0x7FFF_FFFF
      modifies this`rep, this`held
      ensures Valid() && held == old(held) + [Write(key, value)]
    {
      CountAndBody(start, held);
      SetCount(Count(rep) + 1);
      rep := rep + [1];
      rep := rep + Prefixed(key);
      rep := rep + Prefixed(value);
      WriteAdded(Fixed64(start) + Fixed32(|held| + 1), held, key, value);
      held := held + [Write(key, value)];
    }

    method Delete(key: Bytes)
      requires Valid() && |held| < 0x7FFF_FFFF
      modifies this`rep, this`held
      ensures Valid() && held == old(held) + [Erase(key)]
    {
      CountAndBody(start, held);
      SetCount(Count(rep) + 1);
      rep := rep + [0];
      rep := rep + Prefixed(key);
      EraseAdded(Fixed64(start) + Fixed32(|held| + 1), held, key);
      held := held + [Erase(key)];
    }

    /** Adds the updates of another batch behind the ones already here. */
    method Append(src: WriteBatch)
      requires Valid() && src.Valid() && src != this && |held| + |src.held| < 0x8000_0000
      modifies this`rep, this`held
      ensures Valid() && held == old(held) + src.held
    {
      CountAndBody(start, held);
      CountAndBody(src.start, src.held);
      SetCount(Count(rep) + Count(src.rep));
      rep := rep + src.rep[BATCH_HEADER..];
      BatchesJoined(start, held, src.held);
      held := held + src.held;
    }

    /** One round of `Iterate`: hands over the first record of the input, or finds it malformed. */
    static method HandOver(input: Bytes, handler: MemTableInserter, ghost mem: seq<Numbered>, ghost sequence: nat,
                           ghost done: seq<Update>) returns (scan: Scan)
      requires input != [] && handler.mem == mem + Number(sequence, done) && handler.sequence == SequenceAfter(sequence, done)
      modifies handler
      ensures scan.Malformed? ==> Behind(done, ParseBody(input)) == (done, Corruption(scan.reason))
      ensures scan.Malformed? ==> handler.mem == old(handler.mem)
      ensures scan.Scan? ==> |scan.rest| < |input|
      ensures scan.Scan? ==> Behind(done, ParseBody(input)) == Behind(done + [scan.update], ParseBody(scan.rest))
      ensures scan.Scan? ==> handler.mem == mem + Number(sequence, done + [scan.update])
      ensures scan.Scan? ==> handler.sequence == SequenceAfter(sequence, done + [scan.update])
    {
      scan := Next(input);
      if scan.Scan? {
        handler.Apply(scan.update);
        NumberMore(mem, sequence, done, scan.update);
        MoveOver(done, scan.update, ParseBody(scan.rest).0);
      } else {
        assert done + [] == done;
      }
    }

    /** The loop of `Iterate` over the records behind the header. */
    static method IterateBody(body: Bytes, handler: MemTableInserter) returns (found: nat, status: Status)
      requires handler.sequence < TWO_64
      modifies handler
      ensures found == |ParseBody(body).0| && status == ParseBody(body).1
      ensures handler.mem == old(handler.mem) + Number(old(handler.sequence), ParseBody(body).0)
    {
      var input := body;
      found := 0;
      ghost var done: seq<Update> := [];
      assert [] + ParseBody(body).0 == ParseBody(body).0;
      while input != []
        invariant found == |done|
        invariant ParseBody(body) == Behind(done, ParseBody(input))
        invariant handler.sequence == SequenceAfter(old(handler.sequence), done)
        invariant handler.mem == old(handler.mem) + Number(old(handler.sequence), done)
        decreases |input|
      {
        var scan := HandOver(input, handler, old(handler.mem), old(handler.sequence), done);
        match scan
        case Malformed(reason) =>
          return found, Corruption(reason);
        case Scan(u, rest) =>
          found := found + 1;
          input, done := rest, done + [u];
      }
      assert done + [] == done;
      status := Ok;
    }

    /** Hands every update to the handler, up to the first malformed record. */
    method Iterate(handler: MemTableInserter) returns (status: Status)
      requires handler.sequence < TWO_64
      modifies handler
      ensures status == ParseBatch(rep).1
      ensures handler.mem == old(handler.mem) + Number(old(handler.sequence), ParseBatch(rep).0)
    {
      if |rep| < BATCH_HEADER {
        return Corruption("malformed WriteBatch (too small)");
      }
      var found, end := IterateBody(rep[BATCH_HEADER..], handler);
      status := if end.Ok? && found != Count(rep) then Corruption("WriteBatch has wrong count") else end;
    }
  }

  lemma BodySnoc(header: Bytes, us: seq<Update>, u: Update)
    ensures header + Body(us) + Encode(u) == header + Body(us + [u])
  {
    assert Encodings(us + [u]) == Encodings(us) + [Encode(u)];
    FlattenSnoc(Encodings(us), Encode(u));
    Associate(header, Body(us), Encode(u));
  }

  lemma WriteAdded(header: Bytes, us: seq<Update>, key: Bytes, value: Bytes)
    ensures header + Body(us) + [1] + Prefixed(key) + Prefixed(value) == header + Body(us + [Write(key, value)])
  {
    var front := header + Body(us);
    Associate(front, [1], Prefixed(key));
    Associate(front, [1] + Prefixed(key), Prefixed(value));
    BodySnoc(header, us, Write(key, value));
  }

  lemma EraseAdded(header: Bytes, us: seq<Update>, key: Bytes)
    ensures header + Body(us) + [0] + Prefixed(key) == header + Body(us + [Erase(key)])
  {
    Associate(header + Body(us), [0], Prefixed(key));
    BodySnoc(header, us, Erase(key));
  }
}
