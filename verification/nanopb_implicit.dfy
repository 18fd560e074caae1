/** Messages inside a message that have no flag for being there: they are written unless a test of
    their bytes finds nothing but zeros, and what that test overlooks does not come back. */
module NanopbImplicit {
  import opened Format
  import opened Coding
  import opened NanopbWire
  import opened Nanopb
  import opened NanopbRoundTrip

  /** Whether only zeros lie in a place that holds no value, by the positions of the fields that
      lead to it.  Anything may lie there. */
  type Unused = seq<nat> -> bool

  /** What the test finds in such a place. */
  predicate UnusedZero(t: Type, unused: Unused, path: seq<nat>)
    decreases t, 0
  {
    match t
    case Sub(fields) => UnusedZeros(fields, unused, path, 0)
    case FixedBlob(size) => size == 0
    case _ => unused(path)
  }

  predicate UnusedZeros(fs: Fields, unused: Unused, path: seq<nat>, i: nat)
    decreases fs, 0
  {
    fs == [] || (UnusedAt(fs[0], unused, path + [i]) && UnusedZeros(fs[1..], unused, path, i + 1))
  }

  predicate UnusedAt(f: Field, unused: Unused, path: seq<nat>)
    decreases f, 0
  {
    UnusedZero(f.typ, unused, path)
  }

  /** What it finds in a value, and in the place of a field: it looks at the place of the value
      whether or not the value is there, and of an array at the first item only. */
  predicate FindsZero(t: Type, v: Value, unused: Unused, path: seq<nat>)
    requires ValueFits(t, v)
    decreases t, 0
  {
    if t.Sub? then FindsZeros(t.fields, v.slots, unused, path, 0) else IsZero(t, v)
  }

  predicate SlotZero(f: Field, s: Slot, unused: Unused, path: seq<nat>)
    requires SlotFits(f, s)
    decreases f, 0
  {
    match f.rule
    case Required => FindsZero(f.typ, s.v, unused, path)
    case Implicit => FindsZero(f.typ, s.v, unused, path)
    case Repeated(_) => if s.vs == [] then UnusedZero(f.typ, unused, path) else FirstZero(f.typ, s.vs, unused, path)
    case _ => if s.o.None? then UnusedZero(f.typ, unused, path) else FindsZero(f.typ, s.o.value, unused, path)
  }

  predicate FirstZero(t: Type, vs: seq<Value>, unused: Unused, path: seq<nat>)
    requires ValuesFit(t, vs) && vs != []
    decreases t, 1
  {
    FindsZero(t, vs[0], unused, path)
  }

  predicate FindsZeros(fs: Fields, ms: seq<Slot>, unused: Unused, path: seq<nat>, i: nat)
    requires MessageFits(fs, ms)
    decreases fs, 0
  {
    fs == [] || (SlotZero(fs[0], ms[0], unused, path + [i]) && FindsZeros(fs[1..], ms[1..], unused, path, i + 1))
  }

  /** What is written of such a field. */
  function ImplicitBytes(f: Field, v: Value, unused: Unused): Bytes
    requires ValueFits(f.typ, v)
  {
    if FindsZero(f.typ, v, unused, []) then [] else KeyedBytes(f, v)
  }

  /** What comes back of it. */
  function ComesBack(f: Field, v: Value, unused: Unused): Value
    requires ValueFits(f.typ, v)
  {
    if FindsZero(f.typ, v, unused, []) then InitialValue(f.typ, f.init) else Restored(f.typ, v)
  }

  ghost predicate ImplicitMessage(f: Field, v: Value) {
    f.rule.Implicit? && f.typ.Sub? && 0 < f.tag < 0x2000_0000 && GoodTable(f.typ.fields) && ValueFits(f.typ, v)
  }

  /** In any table, in front of anything: the field is read back as that. */
  lemma {:induction false} ReadsImplicit(fs: Fields, st: seq<Slot>, seen: set<nat>, i: nat, v: Value, unused: Unused,
                                         rest: Bytes)
    requires i < |fs| && ImplicitMessage(fs[i], v) && |KeyedBytes(fs[i], v)| < TWO_32
    requires forall a, b :: 0 <= a < b < |fs| ==> fs[a].tag != fs[b].tag
    requires Shaped(fs, st) && st[i] == InitialSlot(fs[i])
    ensures ReadMessage(fs, st, seen, ImplicitBytes(fs[i], v, unused) + rest)
         == ReadMessage(fs, Placed(fs, st, i, One(ComesBack(fs[i], v, unused))), seen, rest)
  {
    var f := fs[i];
    if FindsZero(f.typ, v, unused, []) {
      assert [] + rest == rest;
      assert Placed(fs, st, i, st[i]) == st;
    } else {
      var w := Restored(f.typ, v);
      KeyedShape(f, v, rest);
      SubStartsAlike(f.typ, f.init);
      ReadsValue(f.typ, Base(f, st[i]), v, rest);
      ReadsIntoSlot(f, st[i], w, ValueBytes(f.typ, v) + rest, rest);
      ReadOneField(fs, st, seen, i, TypeWire(f.typ), ValueBytes(f.typ, v) + rest, One(w), rest);
    }
  }

  const ONLY_ZEROS: Unused := path => true

  // The test finds no fewer zeros when only zeros lie in the places without a value.

  lemma {:induction false} UnusedMoreZeros(t: Type, unused: Unused, path: seq<nat>)
    ensures UnusedZero(t, unused, path) ==> UnusedZero(t, ONLY_ZEROS, path)
    decreases t, 0
  {
    if t.Sub? { UnusedAllMoreZeros(t.fields, unused, path, 0); }
  }

  lemma {:induction false} UnusedAllMoreZeros(fs: Fields, unused: Unused, path: seq<nat>, i: nat)
    ensures UnusedZeros(fs, unused, path, i) ==> UnusedZeros(fs, ONLY_ZEROS, path, i)
    decreases fs, 0
  {
    if fs != [] {
      UnusedAtMoreZeros(fs[0], unused, path + [i]);
      UnusedAllMoreZeros(fs[1..], unused, path, i + 1);
    }
  }

  lemma {:induction false} UnusedAtMoreZeros(f: Field, unused: Unused, path: seq<nat>)
    ensures UnusedAt(f, unused, path) ==> UnusedAt(f, ONLY_ZEROS, path)
    decreases f, 0
  {
    UnusedMoreZeros(f.typ, unused, path);
  }

  lemma {:induction false} MoreZeros(t: Type, v: Value, unused: Unused, path: seq<nat>)
    requires ValueFits(t, v)
    ensures FindsZero(t, v, unused, path) ==> FindsZero(t, v, ONLY_ZEROS, path)
    decreases t, 0
  {
    if t.Sub? { AllMoreZeros(t.fields, v.slots, unused, path, 0); }
  }

  lemma {:induction false} FirstMoreZeros(t: Type, vs: seq<Value>, unused: Unused, path: seq<nat>)
    requires ValuesFit(t, vs) && vs != []
    ensures FirstZero(t, vs, unused, path) ==> FirstZero(t, vs, ONLY_ZEROS, path)
    decreases t, 1
  {
    MoreZeros(t, vs[0], unused, path);
  }

  lemma {:induction false} SlotMoreZeros(f: Field, s: Slot, unused: Unused, path: seq<nat>)
    requires SlotFits(f, s)
    ensures SlotZero(f, s, unused, path) ==> SlotZero(f, s, ONLY_ZEROS, path)
    decreases f, 0
  {
    UnusedMoreZeros(f.typ, unused, path);
    match f.rule
    case Required => MoreZeros(f.typ, s.v, unused, path);
    case Implicit => MoreZeros(f.typ, s.v, unused, path);
    case Repeated(_) => if s.vs != [] { FirstMoreZeros(f.typ, s.vs, unused, path); }
    case _ => if s.o.Some? { MoreZeros(f.typ, s.o.value, unused, path); }
  }

  lemma {:induction false} AllMoreZeros(fs: Fields, ms: seq<Slot>, unused: Unused, path: seq<nat>, i: nat)
    requires MessageFits(fs, ms)
    ensures FindsZeros(fs, ms, unused, path, i) ==> FindsZeros(fs, ms, ONLY_ZEROS, path, i)
    decreases fs, 0
  {
    if fs != [] {
      SlotMoreZeros(fs[0], ms[0], unused, path + [i]);
      AllMoreZeros(fs[1..], ms[1..], unused, path, i + 1);
    }
  }

  // What a message starts from loses nothing.

  lemma {:induction false} StartLosesNothing(fs: Fields)
    requires MessageFits(fs, InitialMessage(fs))
    ensures Lossless(fs, InitialMessage(fs))
    decreases fs
  {
    if fs != [] {
      StartSlotLosesNothing(fs[0]);
      assert InitialMessage(fs)[1..] == InitialMessage(fs[1..]);
      StartLosesNothing(fs[1..]);
    }
  }

  lemma {:induction false} StartSlotLosesNothing(f: Field)
    requires SlotFits(f, InitialSlot(f))
    ensures LosslessSlot(f, InitialSlot(f))
    decreases f
  {
    if f.rule.Required? && f.typ.Sub? {
      assert InitialSlot(f).v == InitialValue(f.typ, f.init) == Msg(InitialMessage(f.typ.fields));
      StartLosesNothing(f.typ.fields);
    }
  }

  /** Such a message comes back as it was, whatever lies in the places without a value, if and only
      if it is what a message starts from, or it holds something the test sees, that is, not even
      with zeros in those places is all it looks at zero, and none of its fields is lost. */
  lemma {:induction false} ComesBackExactly(f: Field, v: Value)
    requires ImplicitMessage(f, v)
    ensures (forall unused: Unused :: ComesBack(f, v, unused) == v)
       <==> v == InitialValue(f.typ, f.init)
            || (!FindsZero(f.typ, v, ONLY_ZEROS, []) && Lossless(f.typ.fields, v.slots))
  {
    var start := InitialValue(f.typ, f.init);
    RestoredValueExactly(f.typ, v);
    if v == start { StartLosesNothing(f.typ.fields); }
    forall unused: Unused
      ensures FindsZero(f.typ, v, unused, []) ==> FindsZero(f.typ, v, ONLY_ZEROS, [])
    {
      MoreZeros(f.typ, v, unused, []);
    }
    assert ComesBack(f, v, ONLY_ZEROS) == v ==> v == start || !FindsZero(f.typ, v, ONLY_ZEROS, []);
  }

  /** A message that does not: nothing but an array whose first item is zero, whatever follows. */
  lemma {:induction false} ArrayIsForgotten(f: Field, tag: nat, scalar: Scalar, vs: seq<Value>, unused: Unused)
    requires f.rule.Implicit? && f.typ == Sub([Field(tag, Number(scalar), Repeated(|vs|), None)])
    requires 0 < tag < 0x2000_0000 && 0 < f.tag < 0x2000_0000
    requires ValuesFit(Number(scalar), vs) && vs != [] && vs[0] == Int(0)
    ensures var v := Msg([Many(vs)]);
            && ImplicitMessage(f, v) && ImplicitBytes(f, v, unused) == []
            && ComesBack(f, v, unused) == Msg([Many([])]) != v
  {
    var fs, ms := f.typ.fields, [Many(vs)];
    assert fs[1..] == [] && ms[1..] == [];
    assert GoodField(fs[0]) && GoodFields(fs[1..]);
    assert SlotFits(fs[0], ms[0]) && MessageFits(fs[1..], ms[1..]);
    assert FirstZero(fs[0].typ, vs, unused, [0]);
    assert [] + [0] == [0] && FindsZeros(fs, ms, unused, [], 0);
    assert InitialMessage(fs) == [InitialSlot(fs[0])];
  }
}
