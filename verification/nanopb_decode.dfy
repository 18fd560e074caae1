/** nanopb's decoder: the cyclic field iterator, the bit mask of required fields, and the loops
    over fields, array items and nested messages. */
module NanopbDecode {
  import opened Format
  import opened Coding
  import opened Bits
  import opened NanopbWire
  import opened Nanopb
  import opened NanopbRoundTrip

  /** Steps through a field table and starts over behind its end. */
  class FieldIter {
    const fields: Fields
    var pos: nat
    var requiredFieldIndex: nat    // how many required fields come before

    ghost predicate Valid()
      reads this
    {
      (if fields == [] then pos == 0 else pos < |fields|) && requiredFieldIndex == RequiredBefore(fields, pos)
    }

    constructor (fields: Fields)
      ensures Valid() && pos == 0 && this.fields == fields
    {
      this.fields := fields;
      pos, requiredFieldIndex := 0, 0;
    }

    /** To the next field; false when that means starting over. */
    method Next() returns (more: bool)
      requires Valid()
      modifies this
      ensures Valid() && (more <==> old(pos) + 1 < |fields|)
      ensures pos == if more then old(pos) + 1 else 0
    {
      if fields == [] {
        return false;
      }
      var prev := pos;
      pos := pos + 1;
      if pos == |fields| {
        pos, requiredFieldIndex := 0, 0;
        return false;
      }
      if fields[prev].rule.Required? {
        requiredFieldIndex := requiredFieldIndex + 1;
      }
      more := true;
    }

    /** To the field with a tag, once around from here; when there is none the place stays. */
    method Find(tag: nat) returns (found: bool)
      requires Valid() && forall i, j :: 0 <= i < j < |fields| ==> fields[i].tag != fields[j].tag
      modifies this
      ensures Valid() && (found <==> Nanopb.Find(fields, tag) < |fields|)
      ensures pos == if found then Nanopb.Find(fields, tag) else old(pos)
    {
      if fields == [] {
        return false;
      }
      var start, steps := pos, 0;
      var more := true;
      while more
        invariant Valid() && start < |fields| && steps <= |fields| && (more ==> steps < |fields|)
        invariant pos == Cyclic(start, steps, |fields|)
        invariant forall k :: 0 <= k < steps ==> fields[Cyclic(start, k, |fields|)].tag != tag
        invariant !more ==> steps == |fields|
        decreases more, |fields| - steps
      {
        if fields[pos].tag == tag {
          FindsIt(fields, pos);
          return true;
        }
        var _ := Next();
        steps := steps + 1;
        more := pos != start;
      }
      OnceAround(fields, start, tag);
      found := false;
    }

    /** How many required fields the table has, found by going on to its end. */
    method CountRequired() returns (n: nat)
      requires Valid()
      modifies this
      ensures Valid() && n == RequiredBefore(fields, |fields|) && pos == 0
    {
      if fields == [] {
        return 0;
      }
      var last := false;
      var more := true;
      n := 0;
      while more
        invariant Valid() && (more ==> pos < |fields|)
        invariant !more ==> pos == 0 && n == RequiredBefore(fields, |fields| - 1) && last == fields[|fields| - 1].rule.Required?
        decreases more, |fields| - pos
      {
        n := requiredFieldIndex;
        last := fields[pos].rule.Required?;
        more := Next();
      }
      if last { n := n + 1; }
    }
  }

  /** The k-th place from `start` on a round of n. */
  function Cyclic(start: nat, k: nat, n: nat): (p: nat)
    requires start < n && k <= n
    ensures p < n
  {
    if start + k < n then start + k else start + k - n
  }

  /** A whole round passes every field. */
  lemma {:induction false} OnceAround(fs: Fields, start: nat, tag: nat)
    requires start < |fs| && forall k :: 0 <= k < |fs| ==> fs[Cyclic(start, k, |fs|)].tag != tag
    ensures Nanopb.Find(fs, tag) == |fs|
  {
    forall i | 0 <= i < |fs|
      ensures fs[i].tag != tag
    {
      var k := if i >= start then i - start else i + |fs| - start;
      assert fs[Cyclic(start, k, |fs|)].tag != tag;
    }
  }

  /** The number has its lowest n bits set and no others. */
  ghost predicate LowBits(mask: nat, n: nat) {
    forall i: nat :: TestBit(mask, i) <==> i < n
  }

  lemma HalfLowBits(mask: nat, n: nat)
    requires n > 0
    ensures LowBits(mask, n) <==> mask % 2 == 1 && LowBits(mask / 2, n - 1)
  {
    forall i: nat
      ensures TestBit(mask, i + 1) <==> TestBit(mask / 2, i)
    {
    }
    assert TestBit(mask, 0) <==> mask % 2 == 1;
    if mask % 2 == 1 && LowBits(mask / 2, n - 1) {
      forall i: nat
        ensures TestBit(mask, i) <==> i < n
      {
        if i > 0 { assert TestBit(mask / 2, i - 1) <==> i - 1 < n - 1; }
      }
    }
    if LowBits(mask, n) {
      forall i: nat
        ensures TestBit(mask / 2, i) <==> i < n - 1
      {
        assert TestBit(mask, i + 1) <==> i + 1 < n;
      }
    }
  }

  lemma {:induction false} NoBits(mask: nat)
    ensures LowBits(mask, 0) <==> mask == 0
  {
    if mask > 0 {
      SomeBit(mask);
    } else {
      forall i: nat ensures !TestBit(0, i) { ZeroBits(i); }
    }
  }

  lemma {:induction false} SomeBit(mask: nat)
    requires mask > 0
    ensures exists i: nat :: TestBit(mask, i)
  {
    if mask % 2 == 1 {
      assert TestBit(mask, 0);
    } else {
      SomeBit(mask / 2);
      var i: nat :| TestBit(mask / 2, i);
      assert TestBit(mask, i + 1);
    }
  }

  lemma {:induction false} AllBits(mask: nat, n: nat)
    ensures LowBits(mask, n) <==> mask == Pow2(n) - 1
  {
    if n == 0 {
      NoBits(mask);
    } else {
      HalfLowBits(mask, n);
      AllBits(mask / 2, n - 1);
      assert Pow2(n) - 1 == 2 * (Pow2(n - 1) - 1) + 1;
    }
  }

  /** The bit of required field number b in the words. */
  predicate Marked(words: seq<nat>, b: nat)
    requires |words| == 2 && b < 64
  {
    TestBit(words[b / 32], b % 32)
  }

  /** The words have a bit for every required field that was seen, and no other. */
  ghost predicate Masks(words: seq<nat>, fs: Fields, seen: set<nat>) {
    && |words| == 2 && RequiredBefore(fs, |fs|) < MAX_REQUIRED_FIELDS
    && (forall j :: 0 <= j < |fs| && fs[j].rule.Required? ==>
          RequiredBefore(fs, j) < 64 && (Marked(words, RequiredBefore(fs, j)) <==> j in seen))
    && (forall w, k: nat :: 0 <= w < 2 && TestBit(words[w], k) ==> k < 32 && 32 * w + k < RequiredBefore(fs, |fs|))
  }

  lemma {:induction false} RequiredGrows(fs: Fields, i: nat, j: nat)
    requires i <= j <= |fs|
    ensures RequiredBefore(fs, i) <= RequiredBefore(fs, j)
    ensures i < j && fs[i].rule.Required? ==> RequiredBefore(fs, i) < RequiredBefore(fs, j)
  {
    if i < j { RequiredGrows(fs, i, j - 1); }
  }

  /** Required field number n. */
  lemma {:induction false} NthRequired(fs: Fields, k: nat, n: nat) returns (j: nat)
    requires k <= |fs| && n < RequiredBefore(fs, k)
    ensures j < k && fs[j].rule.Required? && RequiredBefore(fs, j) == n
  {
    if fs[k - 1].rule.Required? && RequiredBefore(fs, k - 1) == n {
      j := k - 1;
    } else {
      j := NthRequired(fs, k - 1, n);
    }
  }

  lemma {:induction false} MaskStarts(fs: Fields)
    requires RequiredBefore(fs, |fs|) < MAX_REQUIRED_FIELDS
    ensures Masks([0, 0], fs, {})
  {
    forall n: nat ensures !TestBit(0, n) { ZeroBits(n); }
    forall j | 0 <= j < |fs| && fs[j].rule.Required?
      ensures RequiredBefore(fs, j) < 64
    {
      RequiredGrows(fs, j, |fs|);
    }
  }

  /** The words with the bit of required field number b set. */
  function Mark(words: seq<nat>, b: nat): seq<nat>
    requires |words| == 2 && b < 64
  {
    words[b / 32 := SetBit(words[b / 32], b % 32)]
  }

  lemma {:induction false} MarkMarks(words: seq<nat>, b: nat, c: nat)
    requires |words| == 2 && b < 64 && c < 64
    ensures Marked(Mark(words, b), c) <==> c == b || Marked(words, c)
  {
    SetBitTests(words[b / 32], b % 32, c % 32);
  }

  /** Seeing required field i. */
  lemma {:induction false} MaskGrows(words: seq<nat>, fs: Fields, seen: set<nat>, i: nat)
    requires Masks(words, fs, seen) && i < |fs| && fs[i].rule.Required?
    ensures RequiredBefore(fs, i) < 64 && Masks(Mark(words, RequiredBefore(fs, i)), fs, seen + {i})
  {
    var b := RequiredBefore(fs, i);
    forall j | 0 <= j < |fs| && fs[j].rule.Required?
      ensures Marked(Mark(words, b), RequiredBefore(fs, j)) <==> j in seen + {i}
    {
      MarkMarks(words, b, RequiredBefore(fs, j));
      if i < j { RequiredGrows(fs, i, j); } else if j < i { RequiredGrows(fs, j, i); }
    }
    RequiredGrows(fs, i, |fs|);
    forall w, k: nat | 0 <= w < 2 && TestBit(Mark(words, b)[w], k)
      ensures k < 32 && 32 * w + k < RequiredBefore(fs, |fs|)
    {
      SetBitTests(words[b / 32], b % 32, k);
    }
  }

  /** The required fields with numbers from lo on and below hi have been seen. */
  ghost predicate SeenAmong(fs: Fields, seen: set<nat>, lo: nat, hi: nat) {
    forall j :: 0 <= j < |fs| && fs[j].rule.Required? && lo <= RequiredBefore(fs, j) < hi ==> j in seen
  }

  /** A word has all its n bits exactly when the fields they stand for have been seen. */
  lemma {:induction false} FullWord(words: seq<nat>, fs: Fields, seen: set<nat>, w: nat, n: nat)
    requires Masks(words, fs, seen) && w < 2 && n <= 32 && 32 * w + n <= RequiredBefore(fs, |fs|)
    requires n == 32 || 32 * w + n == RequiredBefore(fs, |fs|)
    ensures words[w] == Pow2(n) - 1 <==> SeenAmong(fs, seen, 32 * w, 32 * w + n)
  {
    AllBits(words[w], n);
    if SeenAmong(fs, seen, 32 * w, 32 * w + n) {
      forall k: nat
        ensures TestBit(words[w], k) <==> k < n
      {
        SeenBit(words, fs, seen, w, n, k);
      }
    } else {
      var j :| 0 <= j < |fs| && fs[j].rule.Required? && 32 * w <= RequiredBefore(fs, j) < 32 * w + n && j !in seen;
      MissingBit(words, fs, seen, w, j);
    }
  }

  lemma {:induction false} SeenBit(words: seq<nat>, fs: Fields, seen: set<nat>, w: nat, n: nat, k: nat)
    requires Masks(words, fs, seen) && w < 2 && n <= 32 && 32 * w + n <= RequiredBefore(fs, |fs|)
    requires n == 32 || 32 * w + n == RequiredBefore(fs, |fs|)
    requires SeenAmong(fs, seen, 32 * w, 32 * w + n)
    ensures TestBit(words[w], k) <==> k < n
  {
    if k < n {
      var j := NthRequired(fs, |fs|, 32 * w + k);
      assert Marked(words, 32 * w + k);
    }
  }

  lemma {:induction false} MissingBit(words: seq<nat>, fs: Fields, seen: set<nat>, w: nat, j: nat)
    requires Masks(words, fs, seen) && w < 2 && j < |fs| && fs[j].rule.Required? && j !in seen
    requires 32 * w <= RequiredBefore(fs, j) < 32 * w + 32
    ensures !TestBit(words[w], RequiredBefore(fs, j) - 32 * w)
  {
    assert !Marked(words, RequiredBefore(fs, j));
  }

  /** The final test: every required field must have its bit. */
  method AllPresent(words: seq<nat>, n: nat, ghost fs: Fields, ghost seen: set<nat>) returns (all: bool)
    requires Masks(words, fs, seen) && n == RequiredBefore(fs, |fs|) && Testable(n)
    ensures all <==> AllRequiredSeen(fs, seen)
  {
    forall j | 0 <= j < |fs| && fs[j].rule.Required?
      ensures RequiredBefore(fs, j) < n
    {
      RequiredGrows(fs, j, |fs|);
    }
    if n == 0 {
      return true;
    }
    for i := 0 to n / 32
      invariant SeenAmong(fs, seen, 0, 32 * i)
    {
      FullWord(words, fs, seen, i, 32);
      if words[i] != Pow2(32) - 1 {
        return false;
      }
    }
    FullWord(words, fs, seen, n / 32, n % 32);
    all := words[n / 32] == Pow2(n % 32) - 1;
  }

  /** A varint whose first i bytes came to `sum`, the next one being worth `shift`. */
  function Continued(sum: nat, shift: nat, i: nat, rest: Option<(nat, nat)>): Option<(nat, nat)> {
    if rest.None? then None else Some((sum + shift * rest.value.0, i + rest.value.1))
  }

  lemma {:induction false} VarintGoesOn(b: Bytes, groups: nat, sum: nat, shift: nat, i: nat, part: nat)
    requires groups > 0 && b != [] && part == b[0] % 128 * shift
    ensures Continued(sum, shift, i, GetVarint(b, groups)) ==
              if b[0] < 128 then Some((sum + part, i + 1))
              else Continued(sum + part, 128 * shift, i + 1, GetVarint(b[1..], groups - 1))
  {
    if b[0] >= 128 && GetVarint(b[1..], groups - 1).Some? {
      Distributes(sum, shift, b[0] - 128, GetVarint(b[1..], groups - 1).value.0);
    }
  }

  lemma Distributes(sum: nat, shift: nat, x: nat, v: nat)
    ensures sum + shift * (x + 128 * v) == sum + x * shift + 128 * shift * v
  {
  }

  /** Seven bits at a time; those beyond 64, or 32, are shifted out. */
  method DecodeGroups(b: Bytes, groups: nat, modulus: nat) returns (r: Read<nat>)
    requires modulus == TWO_32 || modulus == TWO_64
    ensures r == match GetVarint(b, groups) case None => Error case Some((v, n)) => Read(v % modulus, b[n..])
  {
    var result: nat, shift: nat, i: nat := 0, 1, 0;
    ghost var sum: nat := 0;
    while i < groups && i < |b|
      invariant i <= groups && i <= |b| && result == sum % modulus
      invariant GetVarint(b, groups) == Continued(sum, shift, i, GetVarint(b[i..], groups - i))
    {
      var part := b[i] % 128 * shift;
      VarintGoesOn(b[i..], groups - i, sum, shift, i, part);
      assert b[i..][1..] == b[i + 1..];
      AddModulo(sum, part, modulus);
      result := (result + part) % modulus;
      sum, shift, i := sum + part, 128 * shift, i + 1;
      if b[i - 1] < 128 {
        return Read(result, b[i..]);
      }
    }
    r := Error;
  }

  lemma AddModulo(a: nat, b: nat, m: nat)
    requires m == TWO_32 || m == TWO_64
    ensures (a % m + b) % m == (a + b) % m
  {
    if m == TWO_32 {
      assert (a % TWO_32 + b) % TWO_32 == (a + b) % TWO_32;
    } else {
      assert (a % TWO_64 + b) % TWO_64 == (a + b) % TWO_64;
    }
  }

  method DecodeScalar(s: Scalar, b: Bytes) returns (r: Read<int>)
    ensures r == ReadScalar(s, b)
  {
    if s.Fixed32? || s.Fixed64? {
      return ReadScalar(s, b);
    }
    var value := DecodeGroups(b, 10, TWO_64);
    if value.Error? {
      return Error;
    }
    var v := Cast(s, value.value);
    r := if v.None? then Error else Read(v.value, value.rest);
  }

  /** A length and as many bytes: the part of the input a nested reader may use. */
  method MakeSubstream(b: Bytes) returns (r: Read<Bytes>)
    ensures r == ReadDelimited(b)
  {
    var size := DecodeGroups(b, 5, TWO_32);
    r := if size.Error? then Error else ReadBytes(size.rest, size.value);
  }

  /** The items of a packed array, until the array or its bytes end. */
  method DecodePacked(s: Scalar, max: nat, vs0: seq<Value>, data: Bytes) returns (r: Option<seq<Value>>)
    ensures r == ReadPacked(s, max, vs0, data)
  {
    var vs, b := vs0, data;
    while b != [] && |vs| < max
      invariant ReadPacked(s, max, vs0, data) == ReadPacked(s, max, vs, b)
      decreases |b|
    {
      var item := DecodeScalar(s, b);
      if item.Error? {
        return None;
      }
      vs := vs + [Int(item.value)];
      b := item.rest;
    }
    r := if b != [] then None else Some(vs);
  }

  /** One value; a message in a bounded part of the input, read on top of what its place holds. */
  method DecodeValue(t: Type, base: Value, b: Bytes) returns (r: Read<Value>)
    requires GoodType(t)
    ensures r == ReadValue(t, base, b)
    decreases t, 0
  {
    if t.Number? {
      var n := DecodeScalar(t.scalar, b);
      return if n.Error? then Error else Read(Int(n.value), n.rest);
    }
    var part := MakeSubstream(b);
    if part.Error? {
      return Error;
    }
    var (data, rest) := (part.value, part.rest);
    match t {
      case Blob(max) => r := if |data| > max then Error else Read(Data(data), rest);
      case Text(size) => r := if |data| + 1 > size then Error else Read(Data(data), rest);
      case FixedBlob(size) =>
        r := if data == [] then Read(Data(seq(size, i => 0)), rest)
             else if |data| != size then Error
             else Read(Data(data), rest);
      case Sub(fields) =>
        if !base.Msg? || !Shaped(fields, base.slots) {
          return Error;
        }
        var slots := DecodeMessage(fields, base.slots, data);
        r := if slots.None? then Error else Read(Msg(slots.value), rest);
    }
  }

  /** `decode_static_field`: one occurrence of a field goes into its place. */
  method DecodeSlot(f: Field, wireType: nat, s: Slot, b: Bytes) returns (r: Read<Slot>)
    requires GoodField(f) && SlotShaped(f.rule, s)
    ensures r == ReadSlot(f, wireType, s, b)
    decreases f, 1
  {
    var v;
    match f.rule {
      case Required =>
        v := DecodeValue(f.typ, s.v, b);
        if v.Read? { return Read(One(v.value), v.rest); }
      case Implicit =>
        v := DecodeValue(f.typ, s.v, b);
        if v.Read? { return Read(One(v.value), v.rest); }
      case Optional =>
        v := DecodeValue(f.typ, if s.o.Some? then s.o.value else InitialValue(f.typ, f.init), b);
        if v.Read? { return Read(Maybe(Some(v.value)), v.rest); }
      case OneOf(_) =>
        v := DecodeValue(f.typ, InitialValue(f.typ, None), b);
        if v.Read? { return Read(Maybe(Some(v.value)), v.rest); }
      case Repeated(max) =>
        if wireType == WT_STRING && f.typ.Number? {
          var part := MakeSubstream(b);
          if part.Error? { return Error; }
          var vs := DecodePacked(f.typ.scalar, max, s.vs, part.value);
          return if vs.None? then Error else Read(Many(vs.value), part.rest);
        }
        if |s.vs| >= max { return Error; }
        v := DecodeValue(f.typ, InitialValue(f.typ, None), b);
        if v.Read? { return Read(Many(s.vs + [v.value]), v.rest); }
    }
    r := Error;
  }

  /** `pb_decode_noinit`: reads fields onto the message until the input or the message ends. */
  method DecodeMessage(fs: Fields, ms0: seq<Slot>, input: Bytes) returns (r: Option<seq<Slot>>)
    requires GoodTable(fs) && Shaped(fs, ms0)
    ensures r == ReadMessage(fs, ms0, {}, input)
    decreases fs, 2
  {
    var iter := new FieldIter(fs);
    var ms, b, fieldsSeen, more := ms0, input, [0, 0], true;
    ghost var seen: set<nat> := {};
    MaskStarts(fs);
    while b != [] && more
      invariant iter.Valid() && fresh(iter) && iter.fields == fs && Shaped(fs, ms) && Masks(fieldsSeen, fs, seen)
      invariant ReadMessage(fs, ms0, {}, input) ==
                  if more then ReadMessage(fs, ms, seen, b) else if AllRequiredSeen(fs, seen) then Some(ms) else None
      decreases more, |b|
    {
      var (key, rest) := ReadKey(b);
      match key {
        case Broken => return None;
        case End => more := false;
        case Key(tag, wireType) =>
          KeyShortens(b);
          var found := iter.Find(tag);
          if !found {
            if fs == [] && tag == 0 { return None; }
            var after := Skip(wireType, rest);
            if after.None? { return None; }
            b := after.value;
          } else {
            var i := iter.pos;
            if fs[i].rule.Required? { MaskGrows(fieldsSeen, fs, seen, i); }
            if fs[i].rule.Required? && iter.requiredFieldIndex < MAX_REQUIRED_FIELDS {
              fieldsSeen := Mark(fieldsSeen, iter.requiredFieldIndex);
              seen := seen + {i};
            }
            GoodAt(fs, i);
            var slot := DecodeSlot(fs[i], wireType, ms[i], rest);
            if slot.Error? { return None; }
            ms := Placed(fs, ms, i, slot.value);
            b := slot.rest;
          }
      }
    }
    var reqFieldCount := iter.CountRequired();
    var all := AllPresent(fieldsSeen, reqFieldCount, fs, seen);
    r := if all then Some(ms) else None;
  }

  /** `pb_decode`: starts from the initial message. */
  method Decode(fs: Fields, input: Bytes) returns (r: Option<seq<Slot>>)
    requires GoodTable(fs)
    ensures Shaped(fs, InitialMessage(fs)) && r == ReadMessage(fs, InitialMessage(fs), {}, input)
  {
    InitialShaped(fs);
    r := DecodeMessage(fs, InitialMessage(fs), input);
  }
}
