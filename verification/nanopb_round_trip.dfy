/** What nanopb's decoder reads from what its encoder wrote is the message that was written. */
module NanopbRoundTrip {
  import opened Format
  import opened Coding
  import opened NanopbWire
  import opened Nanopb

  /** What a field table must be like, its nested tables too: tags that are distinct, not zero and
      fit a key; a number of required fields for which the final test is defined; and implicitly
      optional fields that are no messages. */
  predicate GoodTable(fs: Fields)
    decreases fs, 1
  {
    && (forall i :: 0 <= i < |fs| ==> 0 < fs[i].tag < 0x2000_0000)
    && (forall i, j :: 0 <= i < j < |fs| ==> fs[i].tag != fs[j].tag)
    && Testable(RequiredBefore(fs, |fs|))
    && GoodFields(fs)
  }

  predicate GoodFields(fs: Fields)
    decreases fs, 0
  {
    fs == [] || (GoodField(fs[0]) && GoodFields(fs[1..]))
  }

  predicate GoodField(f: Field)
    decreases f
  {
    (f.rule.Implicit? ==> !f.typ.Sub?) && GoodType(f.typ)
  }

  predicate GoodType(t: Type)
    decreases t
  {
    t.Sub? ==> GoodTable(t.fields)
  }

  lemma {:induction false} GoodAt(fs: Fields, i: nat)
    requires GoodFields(fs) && i < |fs|
    ensures GoodField(fs[i])
  {
    if i > 0 { GoodAt(fs[1..], i - 1); }
  }

  // What comes back.

  /** A value as it is read back: in its messages the implicitly optional fields that are zero,
      which are not written, have the values those messages start from. */
  function Restored(t: Type, v: Value): (r: Value)
    requires ValueFits(t, v)
    ensures !t.Sub? ==> r == v
    decreases t, 0
  {
    match t
    case Sub(fields) => Msg(RestoredMessage(fields, v.slots))
    case _ => v
  }

  function RestoredItems(t: Type, vs: seq<Value>): (r: seq<Value>)
    requires ValuesFit(t, vs)
    ensures |r| == |vs| && (!t.Sub? ==> r == vs)
    decreases t, 1, |vs|
  {
    if vs == [] then [] else [Restored(t, vs[0])] + RestoredItems(t, vs[1..])
  }

  function RestoredSlot(f: Field, s: Slot): (r: Slot)
    requires SlotFits(f, s)
    ensures SlotShaped(f.rule, r)
    ensures s.Maybe? ==> r.Maybe? && (r.o.None? <==> s.o.None?)
    decreases f, 0
  {
    match f.rule
    case Required => One(Restored(f.typ, s.v))
    case Implicit => if IsZero(f.typ, s.v) then InitialSlot(f) else s
    case Repeated(_) => Many(RestoredItems(f.typ, s.vs))
    case _ => Maybe(if s.o.Some? then Some(Restored(f.typ, s.o.value)) else None)
  }

  function RestoredMessage(fs: Fields, ms: seq<Slot>): (r: seq<Slot>)
    requires MessageFits(fs, ms)
    ensures |r| == |fs|
    decreases fs, 0
  {
    if fs == [] then [] else [RestoredSlot(fs[0], ms[0])] + RestoredMessage(fs[1..], ms[1..])
  }

  lemma {:induction false} RestoredAt(fs: Fields, ms: seq<Slot>, i: nat)
    requires MessageFits(fs, ms) && i < |fs|
    ensures SlotFits(fs[i], ms[i]) && RestoredMessage(fs, ms)[i] == RestoredSlot(fs[i], ms[i])
  {
    if i > 0 { RestoredAt(fs[1..], ms[1..], i - 1); }
  }

  /** No implicitly optional field, at any depth, is zero where its message starts from another
      value. */
  predicate Lossless(fs: Fields, ms: seq<Slot>)
    requires MessageFits(fs, ms)
    decreases fs, 0
  {
    fs == [] || (LosslessSlot(fs[0], ms[0]) && Lossless(fs[1..], ms[1..]))
  }

  predicate LosslessSlot(f: Field, s: Slot)
    requires SlotFits(f, s)
    decreases f, 0
  {
    match f.rule
    case Required => LosslessValue(f.typ, s.v)
    case Implicit => IsZero(f.typ, s.v) ==> InitialValue(f.typ, f.init) == s.v
    case Repeated(_) => LosslessItems(f.typ, s.vs)
    case _ => s.o.Some? ==> LosslessValue(f.typ, s.o.value)
  }

  predicate LosslessItems(t: Type, vs: seq<Value>)
    requires ValuesFit(t, vs)
    decreases t, 1, |vs|
  {
    vs == [] || (LosslessValue(t, vs[0]) && LosslessItems(t, vs[1..]))
  }

  predicate LosslessValue(t: Type, v: Value)
    requires ValueFits(t, v)
    decreases t, 0
  {
    t.Sub? ==> Lossless(t.fields, v.slots)
  }

  lemma {:induction false} RestoredValueExactly(t: Type, v: Value)
    requires ValueFits(t, v)
    ensures Restored(t, v) == v <==> LosslessValue(t, v)
    decreases t, 0
  {
    if t.Sub? { RestoredExactly(t.fields, v.slots); }
  }

  lemma {:induction false} RestoredItemsExactly(t: Type, vs: seq<Value>)
    requires ValuesFit(t, vs)
    ensures RestoredItems(t, vs) == vs <==> LosslessItems(t, vs)
    decreases t, 1, |vs|
  {
    if vs != [] {
      RestoredValueExactly(t, vs[0]);
      RestoredItemsExactly(t, vs[1..]);
      SameParts([Restored(t, vs[0])], RestoredItems(t, vs[1..]), vs);
    }
  }

  lemma SameParts<T>(a: seq<T>, b: seq<T>, c: seq<T>)
    requires |a| == 1 && c != []
    ensures a + b == c <==> a[0] == c[0] && b == c[1..]
  {
    assert a + b == c ==> (a + b)[1..] == b;
    assert c == [c[0]] + c[1..];
  }

  lemma {:induction false} RestoredSlotExactly(f: Field, s: Slot)
    requires SlotFits(f, s)
    ensures RestoredSlot(f, s) == s <==> LosslessSlot(f, s)
    decreases f, 0
  {
    match f.rule
    case Required => RestoredValueExactly(f.typ, s.v);
    case Implicit =>
    case Repeated(_) => RestoredItemsExactly(f.typ, s.vs);
    case _ => if s.o.Some? { RestoredValueExactly(f.typ, s.o.value); }
  }

  /** A message comes back as it was if and only if nothing is lost in that way. */
  lemma {:induction false} RestoredExactly(fs: Fields, ms: seq<Slot>)
    requires MessageFits(fs, ms)
    ensures RestoredMessage(fs, ms) == ms <==> Lossless(fs, ms)
    decreases fs, 0
  {
    if fs != [] {
      RestoredSlotExactly(fs[0], ms[0]);
      RestoredExactly(fs[1..], ms[1..]);
      SameParts([RestoredSlot(fs[0], ms[0])], RestoredMessage(fs[1..], ms[1..]), ms);
    }
  }

  // Reading.

  lemma ReadsDelimited(b: Bytes, rest: Bytes)
    requires |b| < TWO_32
    ensures ReadDelimited(Delimited(b) + rest) == Read(b, rest)
  {
    Associate(Coding.Varint(|b|), b, rest);
    ReadsVarint32(|b|, b + rest);
    ReadsBytes(b, rest);
  }

  lemma {:induction false} NoNul(b: Bytes)
    requires forall c :: c in b ==> c != 0
    ensures UpToNul(b) == b
  {
    if b != [] {
      assert b[0] in b && forall c :: c in b[1..] ==> c in b;
      NoNul(b[1..]);
    }
  }

  lemma {:induction false} ReadsSub(fields: Fields, slots: seq<Slot>, body: Bytes, rest: Bytes)
    requires |body| < TWO_32 && Shaped(fields, InitialMessage(fields))
    requires ReadMessage(fields, InitialMessage(fields), {}, body) == Some(slots)
    ensures ReadValue(Sub(fields), Msg(InitialMessage(fields)), Delimited(body) + rest) == Read(Msg(slots), rest)
  {
    ReadsDelimited(body, rest);
  }

  lemma {:induction false} ReadsPlain(t: Type, base: Value, v: Value, rest: Bytes)
    requires !t.Sub? && ValueFits(t, v) && |ValueBytes(t, v)| < TWO_32
    ensures ReadValue(t, base, ValueBytes(t, v) + rest) == Read(v, rest)
  {
    match t
    case Number(s) => ScalarRoundTrip(s, v.v, rest);
    case Blob(max) => ReadsDelimited(v.b, rest);
    case Text(size) =>
      NoNul(v.b);
      ReadsDelimited(v.b, rest);
    case FixedBlob(size) =>
      ReadsDelimited(v.b, rest);
      if v.b == [] { assert v.b == seq(size, i => 0); }
  }

  lemma {:induction false} PackedEnd(s: Scalar, max: nat, vs: seq<Value>)
    ensures ReadPacked(s, max, vs, []) == Some(vs)
  {
  }

  lemma {:induction false} PackedStep(s: Scalar, max: nat, vs: seq<Value>, b: Bytes, v: int, rest: Bytes,
                                      all: seq<Value>)
    requires b != [] && |vs| < max && ReadScalar(s, b) == Read(v, rest)
    requires ReadPacked(s, max, vs + [Int(v)], rest) == Some(all)
    ensures ReadPacked(s, max, vs, b) == Some(all)
  {
  }

  /** The bytes of some scalars start with the first of them. */
  lemma {:induction false} FirstScalar(s: Scalar, vs: seq<Value>)
    requires vs != [] && ValuesFit(Number(s), vs)
    ensures vs[0].Int? && ScalarsBytes(s, vs) != []
    ensures ReadScalar(s, ScalarsBytes(s, vs)) == Read(vs[0].v, ScalarsBytes(s, vs[1..]))
  {
    assert ValueFits(Number(s), vs[0]);
    ScalarRoundTrip(s, vs[0].v, ScalarsBytes(s, vs[1..]));
  }

  /** The items of a packed array are read back. */
  lemma {:induction false} ReadsPacked(s: Scalar, max: nat, vs0: seq<Value>, vs: seq<Value>)
    requires ValuesFit(Number(s), vs) && |vs0| + |vs| <= max
    ensures ReadPacked(s, max, vs0, ScalarsBytes(s, vs)) == Some(vs0 + vs)
    decreases |vs|
  {
    if vs == [] {
      assert vs0 + vs == vs0;
      PackedEnd(s, max, vs0);
    } else {
      var x, tail := vs[0], vs[1..];
      FirstScalar(s, vs);
      HeadJoined(vs0, vs);
      ReadsPacked(s, max, vs0 + [x], tail);
      PackedStep(s, max, vs0, ScalarsBytes(s, vs), x.v, ScalarsBytes(s, tail), vs0 + vs);
    }
  }

  lemma {:induction false} InitialShaped(fs: Fields)
    ensures Shaped(fs, InitialMessage(fs))
    ensures forall i :: 0 <= i < |fs| ==> InitialMessage(fs)[i] == InitialSlot(fs[i])
  {
    if fs != [] {
      InitialShaped(fs[1..]);
      forall i | 0 <= i < |fs|
        ensures InitialMessage(fs)[i] == InitialSlot(fs[i])
      {
        if i > 0 { assert InitialMessage(fs)[i] == InitialMessage(fs[1..])[i - 1] && fs[i] == fs[1..][i - 1]; }
      }
    }
  }

  /** The message when the first k fields have been read. */
  function After(fs: Fields, ms: seq<Slot>, k: nat): (r: seq<Slot>)
    requires |fs| == |ms|
    ensures |r| == |fs| && forall j :: 0 <= j < |fs| ==> r[j] == if j < k then ms[j] else InitialSlot(fs[j])
  {
    seq(|fs|, j requires 0 <= j < |fs| => if j < k then ms[j] else InitialSlot(fs[j]))
  }

  /** The required fields among the first k. */
  function SeenBefore(fs: Fields, k: nat): set<nat> {
    set j | 0 <= j < k && j < |fs| && fs[j].rule.Required?
  }

  lemma {:induction false} FindsIt(fs: Fields, i: nat)
    requires i < |fs| && forall a, b :: 0 <= a < b < |fs| ==> fs[a].tag != fs[b].tag
    ensures Find(fs, fs[i].tag) == i
  {
  }

  /** Reading one field that has a key. */
  lemma {:induction false} ReadOneField(fs: Fields, st: seq<Slot>, seen: set<nat>, i: nat, wireType: nat,
                                        payload: Bytes, s: Slot, rest: Bytes)
    requires Shaped(fs, st) && i < |fs| && 0 < fs[i].tag < 0x2000_0000 && wireType < 8
    requires forall a, b :: 0 <= a < b < |fs| ==> fs[a].tag != fs[b].tag
    requires ReadSlot(fs[i], wireType, st[i], payload) == Read(s, rest)
    ensures SlotShaped(fs[i].rule, s)
    ensures ReadMessage(fs, st, seen, TagBytes(fs[i].tag, wireType) + payload)
         == ReadMessage(fs, Placed(fs, st, i, s), if fs[i].rule.Required? then seen + {i} else seen, rest)
  {
    ReadsKey(fs[i].tag, wireType, payload);
    FindsIt(fs, i);
  }

  lemma {:induction false} FitsAt(fs: Fields, ms: seq<Slot>, i: nat)
    requires MessageFits(fs, ms) && i < |fs|
    ensures SlotFits(fs[i], ms[i]) && Alone(fs[i], ms[i], fs[i + 1..], ms[i + 1..]) && MessageFits(fs[i..], ms[i..])
    ensures MessageFits(fs[i + 1..], ms[i + 1..])
    ensures MessageBytes(fs[i..], ms[i..]) == FieldBytes(fs[i], ms[i]) + MessageBytes(fs[i + 1..], ms[i + 1..])
  {
    if i > 0 {
      FitsAt(fs[1..], ms[1..], i - 1);
      assert fs[1..][i - 1..] == fs[i..] && ms[1..][i - 1..] == ms[i..];
      assert fs[1..][i..] == fs[i + 1..] && ms[1..][i..] == ms[i + 1..];
    } else {
      assert fs[0..] == fs && ms[0..] == ms;
    }
  }

  lemma {:induction false} AfterShaped(fs: Fields, ms: seq<Slot>, k: nat)
    requires MessageFits(fs, ms) && k <= |fs|
    ensures Shaped(fs, After(fs, RestoredMessage(fs, ms), k))
  {
    forall j | 0 <= j < |fs|
      ensures SlotShaped(fs[j].rule, After(fs, RestoredMessage(fs, ms), k)[j])
    {
      RestoredAt(fs, ms, j);
    }
  }

  /** Of two fields of one union only one has a value. */
  lemma {:induction false} UnionHeldNothing(fs: Fields, ms: seq<Slot>, j: nat, k: nat)
    requires MessageFits(fs, ms) && j < k < |fs|
    requires fs[k].rule.OneOf? && fs[j].rule == fs[k].rule && ms[k].Maybe? && ms[k].o.Some?
    ensures ms[j] == Maybe(None)
  {
    FitsAt(fs, ms, j);
    assert fs[j + 1..][k - j - 1] == fs[k] && ms[j + 1..][k - j - 1] == ms[k];
  }

  /** Putting field k where it belongs: its union, if it has one, held nothing before. */
  lemma {:induction false} PlacedIsAfter(fs: Fields, ms: seq<Slot>, k: nat, rs: seq<Slot>)
    requires MessageFits(fs, ms) && k < |fs| && rs == RestoredMessage(fs, ms) && Shaped(fs, After(fs, rs, k))
    requires SlotShaped(fs[k].rule, rs[k]) && (ms[k].Maybe? ==> ms[k].o.Some?)
    ensures Placed(fs, After(fs, rs, k), k, rs[k]) == After(fs, rs, k + 1)
  {
    var st := After(fs, rs, k);
    FitsAt(fs, ms, k);
    forall j | 0 <= j < |fs|
      ensures Placed(fs, st, k, rs[k])[j] == After(fs, rs, k + 1)[j]
    {
      if j < k && fs[k].rule.OneOf? && fs[j].rule == fs[k].rule {
        UnionHeldNothing(fs, ms, j, k);
        RestoredAt(fs, ms, j);
      }
    }
  }

  lemma SeenGrows(fs: Fields, k: nat)
    requires k < |fs|
    ensures SeenBefore(fs, k + 1) == if fs[k].rule.Required? then SeenBefore(fs, k) + {k} else SeenBefore(fs, k)
  {
  }

  lemma {:induction false} ItemsAreWritten(f: Field, vs: seq<Value>)
    requires ValuesFit(f.typ, vs)
    ensures vs != [] ==> ItemsBytes(f, vs) != []
  {
  }

  /** A field that is not written is read back as it was at the start; that is what it was, unless
      its table gives it another value than zero to start from. */
  lemma {:induction false} SilentField(f: Field, s: Slot)
    requires SlotFits(f, s) && FieldBytes(f, s) == []
    ensures RestoredSlot(f, s) == InitialSlot(f) && !f.rule.Required?
    ensures (f.rule.Implicit? ==> f.init.None?) ==> s == InitialSlot(f)
  {
    match f.rule
    case Implicit =>
      assert ValueFits(f.typ, s.v);
      if f.typ.FixedBlob? && f.typ.size == 0 { assert s.v.b == seq(0, i => 0); }
    case Repeated(_) =>
      ItemsAreWritten(f, s.vs);
    case _ =>
  }

  /** A value behind its key goes into its slot. */
  function SlotWith(f: Field, s: Slot, v: Value): Slot
    requires SlotShaped(f.rule, s)
  {
    match f.rule
    case Required => One(v)
    case Implicit => One(v)
    case Repeated(_) => Many(s.vs + [v])
    case _ => Maybe(Some(v))
  }

  /** What a value is read on top of. */
  function Base(f: Field, s: Slot): Value
    requires SlotShaped(f.rule, s)
  {
    match f.rule
    case Required => s.v
    case Implicit => s.v
    case Optional => if s.o.Some? then s.o.value else InitialValue(f.typ, f.init)
    case _ => InitialValue(f.typ, None)
  }

  lemma {:induction false} ReadsIntoSlot(f: Field, s: Slot, v: Value, b: Bytes, rest: Bytes)
    requires SlotShaped(f.rule, s) && ReadValue(f.typ, Base(f, s), b) == Read(v, rest)
    requires f.rule.Repeated? ==> |s.vs| < f.rule.max && !f.typ.Number?
    ensures ReadSlot(f, TypeWire(f.typ), s, b) == Read(SlotWith(f, s, v), rest)
  {
  }

  lemma {:induction false} KeyedShape(f: Field, v: Value, rest: Bytes)
    requires ValueFits(f.typ, v)
    ensures KeyedBytes(f, v) + rest == TagBytes(f.tag, TypeWire(f.typ)) + (ValueBytes(f.typ, v) + rest)
    ensures |ValueBytes(f.typ, v)| <= |KeyedBytes(f, v)|
  {
    Associate(TagBytes(f.tag, TypeWire(f.typ)), ValueBytes(f.typ, v), rest);
  }

  /** Every value is read back from behind its key, given that its place holds what a message
      starts from. */
  lemma {:induction false} ReadsValue(t: Type, base: Value, v: Value, rest: Bytes)
    requires GoodType(t) && ValueFits(t, v) && |ValueBytes(t, v)| < TWO_32
    requires t.Sub? ==> base == InitialValue(t, None)
    ensures ReadValue(t, base, ValueBytes(t, v) + rest) == Read(Restored(t, v), rest)
    decreases t, 0, 0
  {
    if t.Sub? {
      InitialShaped(t.fields);
      var body := MessageBytes(t.fields, v.slots);
      ReadsRestored(t.fields, v.slots);
      ReadsSub(t.fields, RestoredMessage(t.fields, v.slots), body, rest);
    } else {
      ReadsPlain(t, base, v, rest);
    }
  }

  /** One value of field i, read from behind its key. */
  lemma {:induction false} ReadsKeyed(fs: Fields, st: seq<Slot>, seen: set<nat>, i: nat, v: Value, rest: Bytes)
    requires GoodTable(fs) && Shaped(fs, st) && i < |fs| && ValueFits(fs[i].typ, v) && |KeyedBytes(fs[i], v)| < TWO_32
    requires fs[i].typ.Sub? ==> Base(fs[i], st[i]) == InitialValue(fs[i].typ, None)
    requires fs[i].rule.Repeated? ==> |st[i].vs| < fs[i].rule.max && !fs[i].typ.Number?
    ensures SlotShaped(fs[i].rule, SlotWith(fs[i], st[i], Restored(fs[i].typ, v)))
    ensures ReadMessage(fs, st, seen, KeyedBytes(fs[i], v) + rest)
         == ReadMessage(fs, Placed(fs, st, i, SlotWith(fs[i], st[i], Restored(fs[i].typ, v))),
                        if fs[i].rule.Required? then seen + {i} else seen, rest)
    decreases fs[i], 1, 0
  {
    var f, w := fs[i], Restored(fs[i].typ, v);
    GoodAt(fs, i);
    KeyedShape(f, v, rest);
    ReadsValue(f.typ, Base(f, st[i]), v, rest);
    ReadsIntoSlot(f, st[i], w, ValueBytes(f.typ, v) + rest, rest);
    ReadOneField(fs, st, seen, i, TypeWire(f.typ), ValueBytes(f.typ, v) + rest, SlotWith(f, st[i], w), rest);
  }

  /** The items of an array that is not packed. */
  lemma {:induction false} ReadsItems(fs: Fields, st: seq<Slot>, seen: set<nat>, i: nat, vs: seq<Value>, rest: Bytes)
    requires GoodTable(fs) && Shaped(fs, st) && i < |fs| && ValuesFit(fs[i].typ, vs) && |ItemsBytes(fs[i], vs)| < TWO_32
    requires fs[i].rule.Repeated? && !fs[i].typ.Number? && |st[i].vs| + |vs| <= fs[i].rule.max
    ensures ReadMessage(fs, st, seen, ItemsBytes(fs[i], vs) + rest)
         == ReadMessage(fs, Placed(fs, st, i, Many(st[i].vs + RestoredItems(fs[i].typ, vs))), seen, rest)
    decreases fs[i], 2, |vs|
  {
    var f := fs[i];
    if vs == [] {
      assert st[i].vs + vs == st[i].vs && [] + rest == rest;
      assert Placed(fs, st, i, st[i]) == st;
    } else {
      var tail := ItemsBytes(f, vs[1..]);
      Associate(KeyedBytes(f, vs[0]), tail, rest);
      ReadsKeyed(fs, st, seen, i, vs[0], tail + rest);
      var ws := RestoredItems(f.typ, vs);
      var st' := Placed(fs, st, i, Many(st[i].vs + [ws[0]]));
      ReadsItems(fs, st', seen, i, vs[1..], rest);
      HeadJoined(st[i].vs, ws);
      PlacedTwice(fs, st, i, Many(st[i].vs + [ws[0]]), Many(st[i].vs + ws));
    }
  }

  lemma HeadJoined(a: seq<Value>, b: seq<Value>)
    requires b != []
    ensures a + [b[0]] + b[1..] == a + b
  {
  }

  /** The last of two slots put in one place stays. */
  lemma PlacedTwice(fs: Fields, st: seq<Slot>, i: nat, s: Slot, s': Slot)
    requires Shaped(fs, st) && i < |fs| && SlotShaped(fs[i].rule, s) && SlotShaped(fs[i].rule, s')
    ensures Placed(fs, Placed(fs, st, i, s), i, s') == Placed(fs, st, i, s')
  {
  }

  /** A packed array. */
  lemma {:induction false} ReadsArray(fs: Fields, st: seq<Slot>, seen: set<nat>, i: nat, vs: seq<Value>, rest: Bytes)
    requires GoodTable(fs) && Shaped(fs, st) && i < |fs| && fs[i].rule.Repeated? && fs[i].typ.Number? && vs != []
    requires ValuesFit(fs[i].typ, vs) && st[i].vs == [] && |vs| <= fs[i].rule.max && |ArrayBytes(fs[i], vs)| < TWO_32
    ensures ReadMessage(fs, st, seen, ArrayBytes(fs[i], vs) + rest)
         == ReadMessage(fs, Placed(fs, st, i, Many(vs)), seen, rest)
  {
    var f := fs[i];
    var body := ScalarsBytes(f.typ.scalar, vs);
    Associate(TagBytes(f.tag, WT_STRING), Delimited(body), rest);
    ReadsDelimited(body, rest);
    ReadsPacked(f.typ.scalar, f.rule.max, [], vs);
    assert [] + vs == vs;
    ReadOneField(fs, st, seen, i, WT_STRING, Delimited(body) + rest, Many(vs), rest);
  }

  /** A message starts alike whatever the table says of its field. */
  lemma {:induction false} SubStartsAlike(t: Type, init: Option<Value>)
    ensures t.Sub? ==> InitialValue(t, init) == InitialValue(t, None)
  {
  }

  /** One field of the message, whatever its rule. */
  lemma {:induction false} ReadsField(fs: Fields, ms: seq<Slot>, k: nat, rest: Bytes, rs: seq<Slot>)
    requires GoodTable(fs) && MessageFits(fs, ms) && k < |fs| && SlotFits(fs[k], ms[k]) && rs == RestoredMessage(fs, ms)
    requires Shaped(fs, After(fs, rs, k)) && Shaped(fs, After(fs, rs, k + 1))
    requires |FieldBytes(fs[k], ms[k])| < TWO_32
    ensures ReadMessage(fs, After(fs, rs, k), SeenBefore(fs, k), FieldBytes(fs[k], ms[k]) + rest)
         == ReadMessage(fs, After(fs, rs, k + 1), SeenBefore(fs, k + 1), rest)
    decreases fs[k], 3, 0
  {
    var f, s, st, seen := fs[k], ms[k], After(fs, rs, k), SeenBefore(fs, k);
    GoodAt(fs, k);
    SeenGrows(fs, k);
    RestoredAt(fs, ms, k);
    if FieldBytes(f, s) == [] {
      SilentField(f, s);
      assert [] + rest == rest;
      assert After(fs, rs, k + 1) == st;
    } else {
      PlacedIsAfter(fs, ms, k, rs);
      if f.rule.Repeated? {
        if f.typ.Number? {
          ReadsArray(fs, st, seen, k, s.vs, rest);
        } else {
          ReadsItems(fs, st, seen, k, s.vs, rest);
          assert [] + RestoredItems(f.typ, s.vs) == RestoredItems(f.typ, s.vs);
        }
      } else {
        SubStartsAlike(f.typ, f.init);
        ReadsKeyed(fs, st, seen, k, if s.One? then s.v else s.o.value, rest);
      }
    }
  }

  /** The fields from k on, read after those before. */
  lemma {:induction false} ReadsFrom(fs: Fields, ms: seq<Slot>, k: nat, rs: seq<Slot>)
    requires GoodTable(fs) && MessageFits(fs, ms) && k <= |fs| && MessageFits(fs[k..], ms[k..])
    requires rs == RestoredMessage(fs, ms) && |MessageBytes(fs[k..], ms[k..])| < TWO_32 && Shaped(fs, After(fs, rs, k))
    ensures ReadMessage(fs, After(fs, rs, k), SeenBefore(fs, k), MessageBytes(fs[k..], ms[k..])) == Some(rs)
    decreases fs, 4, |fs| - k
  {
    if k == |fs| {
      assert After(fs, rs, k) == rs;
    } else {
      FitsAt(fs, ms, k);
      AfterShaped(fs, ms, k + 1);
      ReadsField(fs, ms, k, MessageBytes(fs[k + 1..], ms[k + 1..]), rs);
      ReadsFrom(fs, ms, k + 1, rs);
    }
  }

  /** For any table of nested fields and any message that fits it and whose encoding is shorter
      than 4 GB, decoding the encoding gives the message: the same presence, the same counts, the
      same values, all the way down, but for fields that are zero without being written. */
  lemma {:induction false} ReadsRestored(fs: Fields, ms: seq<Slot>)
    requires GoodTable(fs) && MessageFits(fs, ms) && |MessageBytes(fs, ms)| < TWO_32
    ensures Shaped(fs, InitialMessage(fs))
    ensures ReadMessage(fs, InitialMessage(fs), {}, MessageBytes(fs, ms)) == Some(RestoredMessage(fs, ms))
    decreases fs, 5, 0
  {
    var rs := RestoredMessage(fs, ms);
    InitialShaped(fs);
    AfterShaped(fs, ms, 0);
    assert After(fs, rs, 0) == InitialMessage(fs) && SeenBefore(fs, 0) == {};
    assert fs[0..] == fs && ms[0..] == ms;
    ReadsFrom(fs, ms, 0, rs);
  }

  /** The round trip: decoding the encoding gives the very message if and only if no implicitly
      optional field is zero where its message starts from another value. */
  lemma {:induction false} MessageRoundTrip(fs: Fields, ms: seq<Slot>)
    requires GoodTable(fs) && MessageFits(fs, ms) && |MessageBytes(fs, ms)| < TWO_32
    ensures Shaped(fs, InitialMessage(fs))
    ensures ReadMessage(fs, InitialMessage(fs), {}, MessageBytes(fs, ms)) == Some(ms) <==> Lossless(fs, ms)
  {
    ReadsRestored(fs, ms);
    RestoredExactly(fs, ms);
  }

  /** So it is for every message when no table starts such a field from a value of its own. */
  predicate ZeroStarts(fs: Fields)
    decreases fs, 0
  {
    fs == [] || (ZeroStartsAt(fs[0]) && ZeroStarts(fs[1..]))
  }

  predicate ZeroStartsAt(f: Field)
    decreases f, 0
  {
    (f.rule.Implicit? ==> f.init.None?) && (f.typ.Sub? ==> ZeroStarts(f.typ.fields))
  }

  lemma {:induction false} ZeroStartsLoseNothing(fs: Fields, ms: seq<Slot>)
    requires ZeroStarts(fs) && MessageFits(fs, ms)
    ensures Lossless(fs, ms)
    decreases fs, 2
  {
    if fs != [] {
      SlotLosesNothing(fs[0], ms[0]);
      ZeroStartsLoseNothing(fs[1..], ms[1..]);
    }
  }

  lemma {:induction false} SlotLosesNothing(f: Field, s: Slot)
    requires ZeroStartsAt(f) && SlotFits(f, s)
    ensures LosslessSlot(f, s)
    decreases f, 2
  {
    match f.rule
    case Required => ValueLosesNothing(f.typ, s.v);
    case Implicit =>
      assert ValueFits(f.typ, s.v);
      if f.typ.FixedBlob? && f.typ.size == 0 { assert s.v.b == seq(0, i => 0); }
    case Repeated(_) => ItemsLoseNothing(f.typ, s.vs);
    case _ => if s.o.Some? { ValueLosesNothing(f.typ, s.o.value); }
  }

  lemma {:induction false} ItemsLoseNothing(t: Type, vs: seq<Value>)
    requires (t.Sub? ==> ZeroStarts(t.fields)) && ValuesFit(t, vs)
    ensures LosslessItems(t, vs)
    decreases t, 2, |vs|
  {
    if vs != [] {
      ValueLosesNothing(t, vs[0]);
      ItemsLoseNothing(t, vs[1..]);
    }
  }

  lemma {:induction false} ValueLosesNothing(t: Type, v: Value)
    requires (t.Sub? ==> ZeroStarts(t.fields)) && ValueFits(t, v)
    ensures LosslessValue(t, v)
    decreases t, 1
  {
    if t.Sub? { ZeroStartsLoseNothing(t.fields, v.slots); }
  }

  /** A table that does: an implicitly optional number that starts from something else than zero.
      A message in which it is zero comes back with that number. */
  lemma {:induction false} ZeroIsForgotten(tag: nat, scalar: Scalar, start: int)
    requires 0 < tag < 0x2000_0000 && InRange(scalar, start) && start != 0
    ensures var fs, ms := [Field(tag, Number(scalar), Implicit, Some(Int(start)))], [One(Int(0))];
            && GoodTable(fs) && MessageFits(fs, ms) && MessageBytes(fs, ms) == [] && !Lossless(fs, ms)
            && InitialMessage(fs) == [One(Int(start))] && ReadMessage(fs, [One(Int(start))], {}, []) == Some([One(Int(start))])
  {
    var fs, ms := [Field(tag, Number(scalar), Implicit, Some(Int(start)))], [One(Int(0))];
    assert fs[1..] == [] && ms[1..] == [];
    assert GoodField(fs[0]) && GoodFields(fs[1..]);
    assert ValueFits(fs[0].typ, Int(0)) && SlotFits(fs[0], ms[0]) && MessageFits(fs[1..], ms[1..]);
    assert FieldBytes(fs[0], ms[0]) == [];
    assert InitialMessage(fs) == [InitialSlot(fs[0])];
  }
}
