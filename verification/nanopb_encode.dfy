/** nanopb's encoder on its output stream: a buffer with a limit, or no buffer at all, only counting. */
module NanopbEncode {
  import opened Format
  import opened Coding
  import opened NanopbWire
  import opened Nanopb
  import opened NanopbRoundTrip

  /** A stream at one moment. */
  datatype Out = Out(writing: bool, maxSize: nat, bytesWritten: nat, buf: Bytes)

  /** What writing `enc` does: a counting stream always counts, a writing one takes all of it or
      fails, and it takes it exactly when there is room. */
  ghost predicate Wrote(before: Out, after: Out, enc: Bytes, ok: bool) {
    && after.writing == before.writing && after.maxSize == before.maxSize
    && (ok <==> (before.writing ==> before.bytesWritten + |enc| <= before.maxSize))
    && (ok ==> after.bytesWritten == before.bytesWritten + |enc|)
    && (ok ==> after.buf == if before.writing then before.buf + enc else before.buf)
  }

  lemma WroteBoth(a: Out, b: Out, c: Out, x: Bytes, y: Bytes, ok: bool)
    requires Wrote(a, b, x, true) && Wrote(b, c, y, ok)
    ensures Wrote(a, c, x + y, ok)
  {
    assert a.buf + x + y == a.buf + (x + y);
  }

  lemma WroteNot(a: Out, b: Out, x: Bytes, y: Bytes)
    requires Wrote(a, b, x, false)
    ensures Wrote(a, b, x + y, false)
  {
  }

  lemma WroteNothing(a: Out)
    requires a.writing ==> a.bytesWritten <= a.maxSize
    ensures Wrote(a, a, [], true)
  {
    assert a.buf + [] == a.buf;
  }

  /** v in groups of seven bits, the top bit set on all of them. */
  function Groups(v: nat): Bytes {
    if v == 0 then [] else [v % 128 + 128] + Groups(v / 128)
  }

  lemma {:induction false} LastGroup(v: nat)
    requires v > 0
    ensures Groups(v) != [] && Groups(v)[|Groups(v)| - 1] >= 128
    ensures Coding.Varint(v) == Groups(v)[|Groups(v)| - 1 := Groups(v)[|Groups(v)| - 1] - 128]
  {
    if v < 128 {
      assert Groups(v / 128) == [];
      assert Groups(v) == [v + 128];
    } else {
      LastGroup(v / 128);
      var g := Groups(v / 128);
      assert Groups(v) == [v % 128 + 128] + g;
      assert Groups(v)[|Groups(v)| - 1] == g[|g| - 1];
    }
  }

  method VarintBuffer(value: nat) returns (buffer: Bytes)
    requires value > 0
    ensures buffer == Coding.Varint(value)
  {
    buffer := [];
    var v := value;
    while v != 0
      invariant Groups(value) == buffer + Groups(v)
    {
      Associate(buffer, [v % 128 + 128], Groups(v / 128));
      buffer := buffer + [v % 128 + 128];
      v := v / 128;
    }
    assert buffer + [] == buffer;
    LastGroup(value);
    buffer := buffer[|buffer| - 1 := buffer[|buffer| - 1] - 128];
  }

  class OStream {
    const writing: bool            // whether there is a callback
    const maxSize: nat
    var bytesWritten: nat
    var buf: Bytes

    ghost function Now(): Out
      reads this
    {
      Out(writing, maxSize, bytesWritten, buf)
    }

    /** A writing stream never holds more than it may. */
    ghost predicate Valid()
      reads this
    {
      writing ==> bytesWritten <= maxSize
    }

    constructor Sizing()
      ensures Valid() && Now() == Out(false, 0, 0, [])
    {
      writing, maxSize, bytesWritten, buf := false, 0, 0, [];
    }

    constructor FromBuffer(maxSize: nat, buf: Bytes)
      ensures Valid() && Now() == Out(true, maxSize, 0, buf)
    {
      this.writing, this.maxSize, this.bytesWritten, this.buf := true, maxSize, 0, buf;
    }

    method Write(b: Bytes) returns (ok: bool)
      requires Valid()
      modifies this
      ensures Valid() && Wrote(old(Now()), Now(), b, ok)
    {
      if writing {
        if bytesWritten + |b| > maxSize {
          return false;
        }
        buf := buf + b;
      }
      bytesWritten := bytesWritten + |b|;
      ok := true;
    }

    /** Base-128, seven bits at a time. */
    method EncodeVarint(value: nat) returns (ok: bool)
      requires Valid()
      modifies this
      ensures Valid() && Wrote(old(Now()), Now(), Coding.Varint(value), ok)
    {
      if value <= 0x7F {
        ok := Write([value]);
        return;
      }
      var buffer := VarintBuffer(value);
      ok := Write(buffer);
    }

    method EncodeTag(wireType: nat, tag: nat) returns (ok: bool)
      requires Valid() && wireType < 8
      modifies this
      ensures Valid() && Wrote(old(Now()), Now(), TagBytes(tag, wireType), ok)
    {
      ok := EncodeVarint(8 * tag + wireType);
    }

    /** Length and contents. */
    method EncodeString(b: Bytes) returns (ok: bool)
      requires Valid()
      modifies this
      ensures Valid() && Wrote(old(Now()), Now(), Delimited(b), ok)
    {
      ghost var start := Now();
      ok := EncodeVarint(|b|);
      if !ok {
        WroteNot(start, Now(), Coding.Varint(|b|), b);
        return;
      }
      ghost var middle := Now();
      ok := Write(b);
      WroteBoth(start, middle, Now(), Coding.Varint(|b|), b, ok);
    }

    method EncodeScalar(s: Scalar, v: int) returns (ok: bool)
      requires Valid() && InRange(s, v)
      modifies this
      ensures Valid() && Wrote(old(Now()), Now(), ScalarBytes(s, v), ok)
    {
      match s
      case Varint(_) => ok := EncodeVarint(v % TWO_64);
      case UVarint(_) => ok := EncodeVarint(v);
      case SVarint(_) => ok := EncodeVarint(ZigZag(v));
      case Fixed32 => ok := Write(Coding.Fixed32(v));
      case Fixed64 => ok := Write(Coding.Fixed64(v));
    }

    method EncodeScalars(s: Scalar, vs: seq<Value>) returns (ok: bool)
      requires Valid() && ValuesFit(Number(s), vs)
      modifies this
      ensures Valid() && Wrote(old(Now()), Now(), ScalarsBytes(s, vs), ok)
    {
      ghost var start, done := Now(), [];
      var i := 0;
      WroteNothing(start);
      ok := true;
      while i < |vs|
        invariant i <= |vs| && Valid() && ValuesFit(Number(s), vs[i..])
        invariant Wrote(start, Now(), done, true) && ScalarsBytes(s, vs) == done + ScalarsBytes(s, vs[i..])
      {
        assert ValueFits(Number(s), vs[i..][0]) && vs[i..][1..] == vs[i + 1..];
        ghost var before := Now();
        ghost var x, rest := ScalarBytes(s, vs[i].v), ScalarsBytes(s, vs[i + 1..]);
        Associate(done, x, rest);
        ok := EncodeScalar(s, vs[i].v);
        WroteBoth(start, before, Now(), done, x, ok);
        if !ok {
          WroteNot(start, Now(), done + x, rest);
          return;
        }
        done := done + x;
        i := i + 1;
      }
      assert done + [] == done;
    }
  
    /** The size of a packed array. */
    static method PackedSize(s: Scalar, vs: seq<Value>) returns (size: nat)
      requires ValuesFit(Number(s), vs)
      ensures size == |ScalarsBytes(s, vs)|
    {
      FixedSize(s, vs);
      if s.Fixed32? {
        size := 4 * |vs|;
      } else if s.Fixed64? {
        size := 8 * |vs|;
      } else {
        var sizestream := new OStream.Sizing();
        var _ := sizestream.EncodeScalars(s, vs);
        size := sizestream.bytesWritten;
      }
    }

    /** An array of numbers: one key, the size, and the numbers; a counting stream only adds the size. */
    method EncodePacked(f: Field, vs: seq<Value>) returns (ok: bool)
      requires Valid() && f.typ.Number? && vs != [] && ValuesFit(f.typ, vs)
      modifies this
      ensures Valid() && Wrote(old(Now()), Now(), ArrayBytes(f, vs), ok)
    {
      ghost var body := ScalarsBytes(f.typ.scalar, vs);
      ghost var key, length := TagBytes(f.tag, WT_STRING), Coding.Varint(|body|);
      ghost var s0 := Now();
      Associate(key, length, body);
      ok := EncodeTag(WT_STRING, f.tag);
      if !ok { WroteNot(s0, Now(), key, length + body); return; }
      ghost var s1 := Now();
      var size := PackedSize(f.typ.scalar, vs);
      ok := EncodeVarint(size);
      WroteBoth(s0, s1, Now(), key, length, ok);
      if !ok { WroteNot(s0, Now(), key + length, body); return; }
      ghost var s2 := Now();
      if !writing {
        bytesWritten := bytesWritten + size;
        WroteBoth(s0, s2, Now(), key + length, body, true);
        return true;
      }
      ok := EncodeScalars(f.typ.scalar, vs);
      WroteBoth(s0, s2, Now(), key + length, body, ok);
    }

    /** A value, without its key. */
    method EncodeValue(t: Type, v: Value) returns (ok: bool)
      requires Valid() && ValueFits(t, v)
      modifies this
      ensures Valid() && Wrote(old(Now()), Now(), ValueBytes(t, v), ok)
      decreases t, 0, 0
    {
      match t
      case Number(s) => ok := EncodeScalar(s, v.v);
      case Blob(_) => ok := EncodeString(v.b);
      case Text(_) =>
        var size := Length(v.b);
        ok := EncodeString(v.b[..size]);
      case FixedBlob(_) => ok := EncodeString(v.b);
      case Sub(fields) => ok := EncodeSubmessage(fields, v.slots);
    }

    /** A message within a message, in two passes: count it, then write it behind its length. */
    method EncodeSubmessage(fields: Fields, slots: seq<Slot>) returns (ok: bool)
      requires Valid() && MessageFits(fields, slots)
      modifies this
      ensures Valid() && Wrote(old(Now()), Now(), Delimited(MessageBytes(fields, slots)), ok)
      decreases fields, 6, 0
    {
      ghost var body := MessageBytes(fields, slots);
      ghost var length, s0 := Coding.Varint(|body|), Now();
      var counter := new OStream.Sizing();
      var _ := counter.EncodeMessage(fields, slots);
      var size := counter.bytesWritten;
      ok := EncodeVarint(size);
      if !ok { WroteNot(s0, Now(), length, body); return; }
      ghost var s1 := Now();
      if !writing {
        bytesWritten := bytesWritten + size;
        WroteBoth(s0, s1, Now(), length, body, true);
        return true;
      }
      if bytesWritten + size > maxSize {
        WroteBoth(s0, s1, Now(), length, body, false);
        return false;
      }
      var substream := new OStream.FromBuffer(size, buf);
      var status := substream.EncodeMessage(fields, slots);
      bytesWritten := bytesWritten + substream.bytesWritten;
      buf := substream.buf;
      WroteBoth(s0, s1, Now(), length, body, true);
      if substream.bytesWritten != size {
        assert false;      // the size never changes between the passes
      }
      ok := status;
    }

    /** A value behind its key. */
    method EncodeKeyed(f: Field, v: Value) returns (ok: bool)
      requires Valid() && ValueFits(f.typ, v)
      modifies this
      ensures Valid() && Wrote(old(Now()), Now(), KeyedBytes(f, v), ok)
      decreases f, 0, 0
    {
      ghost var key, body, s0 := TagBytes(f.tag, TypeWire(f.typ)), ValueBytes(f.typ, v), Now();
      ok := EncodeTag(TypeWire(f.typ), f.tag);
      if !ok { WroteNot(s0, Now(), key, body); return; }
      ghost var s1 := Now();
      ok := EncodeValue(f.typ, v);
      WroteBoth(s0, s1, Now(), key, body, ok);
    }

    /** The items of an array that is not packed, each behind a key. */
    method EncodeItems(f: Field, vs: seq<Value>) returns (ok: bool)
      requires Valid() && ValuesFit(f.typ, vs)
      modifies this
      ensures Valid() && Wrote(old(Now()), Now(), ItemsBytes(f, vs), ok)
      decreases f, 1, 0
    {
      ghost var start, done := Now(), [];
      var i := 0;
      WroteNothing(start);
      ok := true;
      while i < |vs|
        invariant i <= |vs| && Valid() && ValuesFit(f.typ, vs[i..])
        invariant Wrote(start, Now(), done, true) && ItemsBytes(f, vs) == done + ItemsBytes(f, vs[i..])
      {
        assert ValueFits(f.typ, vs[i..][0]) && vs[i..][1..] == vs[i + 1..];
        ghost var before := Now();
        ghost var x, rest := KeyedBytes(f, vs[i]), ItemsBytes(f, vs[i + 1..]);
        Associate(done, x, rest);
        ok := EncodeKeyed(f, vs[i]);
        WroteBoth(start, before, Now(), done, x, ok);
        if !ok {
          WroteNot(start, Now(), done + x, rest);
          return;
        }
        done := done + x;
        i := i + 1;
      }
      assert done + [] == done;
    }

    method EncodeField(f: Field, s: Slot) returns (ok: bool)
      requires Valid() && SlotFits(f, s)
      modifies this
      ensures Valid() && Wrote(old(Now()), Now(), FieldBytes(f, s), ok)
      decreases f, 2, 0
    {
      ok := true;
      WroteNothing(Now());
      match f.rule
      case Required => ok := EncodeKeyed(f, s.v);
      case Implicit =>
        if !IsZero(f.typ, s.v) { ok := EncodeKeyed(f, s.v); }
      case Optional =>
        if s.o.Some? { ok := EncodeKeyed(f, s.o.value); }
      case OneOf(_) =>
        if s.o.Some? { ok := EncodeKeyed(f, s.o.value); }
      case Repeated(_) =>
        if s.vs != [] {
          if f.typ.Number? { ok := EncodePacked(f, s.vs); } else { ok := EncodeItems(f, s.vs); }
        }
    }

    /** A message, field by field.  Counting and writing agree: a counting stream counts exactly
        the bytes a writing one gets, and writing succeeds exactly when those fit. */
    method EncodeMessage(fs: Fields, ms: seq<Slot>) returns (ok: bool)
      requires Valid() && MessageFits(fs, ms)
      modifies this
      ensures Valid() && Wrote(old(Now()), Now(), MessageBytes(fs, ms), ok)
      decreases fs, 5, 0
    {
      ghost var start, done := Now(), [];
      var i := 0;
      WroteNothing(start);
      ok := true;
      assert fs[0..] == fs && ms[0..] == ms;
      while i < |fs|
        invariant i <= |fs| && Valid()
        invariant MessageFits(fs[i..], ms[i..])
        invariant Wrote(start, Now(), done, true) && MessageBytes(fs, ms) == done + MessageBytes(fs[i..], ms[i..])
      {
        FitsAt(fs, ms, i);
        ghost var before := Now();
        ghost var x, rest := FieldBytes(fs[i], ms[i]), MessageBytes(fs[i + 1..], ms[i + 1..]);
        Associate(done, x, rest);
        ok := EncodeField(fs[i], ms[i]);
        WroteBoth(start, before, Now(), done, x, ok);
        if !ok {
          WroteNot(start, Now(), done + x, rest);
          return;
        }
        done := done + x;
        i := i + 1;
      }
      assert done + [] == done;
    }
  }

  lemma {:induction false} FixedSize(s: Scalar, vs: seq<Value>)
    requires ValuesFit(Number(s), vs)
    ensures s.Fixed32? ==> |ScalarsBytes(s, vs)| == 4 * |vs|
    ensures s.Fixed64? ==> |ScalarsBytes(s, vs)| == 8 * |vs|
  {
    if vs != [] {
      assert ValueFits(Number(s), vs[0]);
      FixedSize(s, vs[1..]);
    }
  }

  lemma {:induction false} TakesOne(b: Bytes, i: nat)
    requires i < |b| && b[i] != 0
    ensures b[..i] + UpToNul(b[i..]) == b[..i + 1] + UpToNul(b[i + 1..])
  {
    assert b[i..][1..] == b[i + 1..];
    assert b[..i] + ([b[i]] + UpToNul(b[i + 1..])) == b[..i + 1] + UpToNul(b[i + 1..]);
  }

  /** The length of a string, up to its terminator. */
  method Length(b: Bytes) returns (size: nat)
    ensures size <= |b| && b[..size] == UpToNul(b)
  {
    size := 0;
    while size < |b| && b[size] != 0
      invariant size <= |b| && UpToNul(b) == b[..size] + UpToNul(b[size..])
    {
      TakesOne(b, size);
      size := size + 1;
    }
    assert UpToNul(b[size..]) == [];
  }

  /** The size of a message without writing it, and writing it to a buffer: the buffer is large
      enough exactly when that size says so, and then holds the encoding and nothing else. */
  method EncodeToBuffer(fs: Fields, ms: seq<Slot>, maxSize: nat) returns (size: nat, ok: bool, buffer: Bytes)
    requires MessageFits(fs, ms)
    ensures size == |MessageBytes(fs, ms)| && (ok <==> size <= maxSize)
    ensures ok ==> buffer == MessageBytes(fs, ms)
  {
    var counter := new OStream.Sizing();
    var _ := counter.EncodeMessage(fs, ms);
    size := counter.bytesWritten;
    var stream := new OStream.FromBuffer(maxSize, []);
    ok := stream.EncodeMessage(fs, ms);
    buffer := stream.buf;
    assert ok ==> [] + MessageBytes(fs, ms) == MessageBytes(fs, ms);
  }
}
