/** Messages driven by field tables: what nanopb's encoder writes and its decoder reads. */
module Nanopb {
  import opened Format
  import opened Coding
  import opened NanopbWire

  /** What a field holds.  Sizes are those of its place in the message struct. */
  datatype Type =
    | Number(scalar: Scalar)
    | Blob(max: nat)                     // a byte array with a length of its own
    | Text(size: nat)                    // a string; its place has room for the terminator
    | FixedBlob(size: nat)               // a byte array of this length
    | Sub(fields: seq<Field>)            // a message of its own

  /** How often a field occurs.  An optional field has a flag, or is there when it is not zero;
      the fields of a union share one place, and their message says which is there. */
  datatype Rule = Required | Optional | Implicit | Repeated(max: nat) | OneOf(union: nat)

  /** A field; `init` is the value its table gives it at the start, if it gives one. */
  datatype Field = Field(tag: nat, typ: Type, rule: Rule, init: Option<Value>)

  datatype Value = Int(v: int) | Data(b: Bytes) | Msg(slots: seq<Slot>)

  /** The place of a field in a message. */
  datatype Slot = One(v: Value) | Maybe(o: Option<Value>) | Many(vs: seq<Value>)

  type Fields = seq<Field>

  /** The part of a string before its terminator. */
  function UpToNul(b: Bytes): Bytes {
    if b == [] || b[0] == 0 then [] else [b[0]] + UpToNul(b[1..])
  }

  function TypeWire(t: Type): nat {
    match t case Number(s) => WireType(s) case _ => WT_STRING
  }

  /** The value fits its place. */
  predicate ValueFits(t: Type, v: Value)
    decreases t, 0
  {
    match t
    case Number(s) => v.Int? && InRange(s, v.v)
    case Blob(max) => v.Data? && |v.b| <= max
    case Text(size) => v.Data? && |v.b| < size && forall c :: c in v.b ==> c != 0
    case FixedBlob(size) => v.Data? && |v.b| == size
    case Sub(fields) => v.Msg? && MessageFits(fields, v.slots)
  }

  predicate ValuesFit(t: Type, vs: seq<Value>)
    decreases t, 1, |vs|
  {
    vs == [] || (ValueFits(t, vs[0]) && ValuesFit(t, vs[1..]))
  }

  predicate SlotFits(f: Field, s: Slot)
    decreases f, 0
  {
    match f.rule
    case Required => s.One? && ValueFits(f.typ, s.v)
    case Implicit => s.One? && !f.typ.Sub? && ValueFits(f.typ, s.v)
    case Optional => s.Maybe? && (s.o.Some? ==> ValueFits(f.typ, s.o.value))
    case OneOf(_) => s.Maybe? && (s.o.Some? ==> ValueFits(f.typ, s.o.value))
    case Repeated(max) => s.Many? && |s.vs| <= max && ValuesFit(f.typ, s.vs)
  }

  /** When a field of a union is there, no other field of the union is. */
  predicate Alone(f: Field, s: Slot, fs: Fields, ms: seq<Slot>) {
    f.rule.OneOf? && s.Maybe? && s.o.Some? ==>
      forall j :: 0 <= j < |fs| && j < |ms| && fs[j].rule == f.rule ==> ms[j] == Maybe(None)
  }

  /** The message fits its struct. */
  predicate MessageFits(fs: Fields, ms: seq<Slot>)
    decreases fs, 0
  {
    |fs| == |ms| &&
    (fs == [] || (SlotFits(fs[0], ms[0]) && Alone(fs[0], ms[0], fs[1..], ms[1..]) && MessageFits(fs[1..], ms[1..])))
  }

  /** An implicitly optional value that counts as absent. */
  predicate IsZero(t: Type, v: Value) {
    match t
    case Number(_) => v.Int? && v.v == 0
    case FixedBlob(size) => size == 0
    case _ => v.Data? && v.b == []
  }

  /** Length and contents. */
  function Delimited(b: Bytes): (r: Bytes)
    ensures r != []
  {
    Coding.Varint(|b|) + b
  }

  /** A value without its key. */
  function ValueBytes(t: Type, v: Value): Bytes
    requires ValueFits(t, v)
    decreases t, 0
  {
    match t
    case Number(s) => ScalarBytes(s, v.v)
    case Blob(_) => Delimited(v.b)
    case Text(_) => Delimited(UpToNul(v.b))
    case FixedBlob(_) => Delimited(v.b)
    case Sub(fields) => Delimited(MessageBytes(fields, v.slots))
  }

  function ScalarsBytes(s: Scalar, vs: seq<Value>): Bytes
    requires ValuesFit(Number(s), vs)
  {
    assert vs != [] ==> ValueFits(Number(s), vs[0]);
    if vs == [] then [] else ScalarBytes(s, vs[0].v) + ScalarsBytes(s, vs[1..])
  }

  /** A value behind its key. */
  function KeyedBytes(f: Field, v: Value): Bytes
    requires ValueFits(f.typ, v)
    decreases f.typ, 1
  {
    TagBytes(f.tag, TypeWire(f.typ)) + ValueBytes(f.typ, v)
  }

  function ItemsBytes(f: Field, vs: seq<Value>): Bytes
    requires ValuesFit(f.typ, vs)
    decreases f.typ, 2, |vs|
  {
    if vs == [] then [] else KeyedBytes(f, vs[0]) + ItemsBytes(f, vs[1..])
  }

  /** An array: packed behind one key when its type allows, otherwise a key for every item. */
  function ArrayBytes(f: Field, vs: seq<Value>): Bytes
    requires ValuesFit(f.typ, vs)
    decreases f.typ, 3
  {
    if vs == [] then []
    else if f.typ.Number? then TagBytes(f.tag, WT_STRING) + Delimited(ScalarsBytes(f.typ.scalar, vs))
    else ItemsBytes(f, vs)
  }

  function FieldBytes(f: Field, s: Slot): Bytes
    requires SlotFits(f, s)
    decreases f, 0
  {
    match f.rule
    case Required => KeyedBytes(f, s.v)
    case Implicit => if IsZero(f.typ, s.v) then [] else KeyedBytes(f, s.v)
    case Optional => if s.o.Some? then KeyedBytes(f, s.o.value) else []
    case OneOf(_) => if s.o.Some? then KeyedBytes(f, s.o.value) else []
    case Repeated(_) => ArrayBytes(f, s.vs)
  }

  /** A message: its fields in the order of the table. */
  function MessageBytes(fs: Fields, ms: seq<Slot>): Bytes
    requires MessageFits(fs, ms)
    decreases fs, 0
  {
    if fs == [] then [] else FieldBytes(fs[0], ms[0]) + MessageBytes(fs[1..], ms[1..])
  }

  /** What a place holds before anything was read into it. */
  function InitialValue(t: Type, init: Option<Value>): Value
    decreases t, 0
  {
    match t
    case Sub(fields) => Msg(InitialMessage(fields))
    case Number(_) => if init.Some? then init.value else Int(0)
    case FixedBlob(size) => if init.Some? then init.value else Data(seq(size, i => 0))
    case _ => if init.Some? then init.value else Data([])
  }

  function InitialSlot(f: Field): Slot
    decreases f, 0
  {
    match f.rule
    case Required => One(InitialValue(f.typ, f.init))
    case Implicit => One(InitialValue(f.typ, f.init))
    case Optional => Maybe(None)
    case OneOf(_) => Maybe(None)
    case Repeated(_) => Many([])
  }

  function InitialMessage(fs: Fields): (ms: seq<Slot>)
    ensures |ms| == |fs|
    decreases fs, 0
  {
    if fs == [] then [] else [InitialSlot(fs[0])] + InitialMessage(fs[1..])
  }

  /** The position of the field with a tag, |fs| when there is none. */
  function Find(fs: Fields, tag: nat): (i: nat)
    ensures i <= |fs|
    ensures i < |fs| ==> fs[i].tag == tag
    ensures forall j :: 0 <= j < i ==> fs[j].tag != tag
  {
    if fs == [] || fs[0].tag == tag then 0 else 1 + Find(fs[1..], tag)
  }

  /** The slots have the shapes the fields ask for. */
  predicate Shaped(fs: Fields, ms: seq<Slot>) {
    |fs| == |ms| && forall i :: 0 <= i < |fs| ==> SlotShaped(fs[i].rule, ms[i])
  }

  predicate SlotShaped(r: Rule, s: Slot) {
    match r
    case Required => s.One?
    case Implicit => s.One?
    case Optional => s.Maybe?
    case OneOf(_) => s.Maybe?
    case Repeated(_) => s.Many?
  }

  /** A length-delimited stretch of the input. */
  function ReadDelimited(b: Bytes): (r: Read<Bytes>)
    ensures r.Read? ==> |r.rest| < |b|
  {
    match ReadVarint32(b)
    case Error => Error
    case Read(size, rest) => ReadBytes(rest, size)
  }

  /** A value; a message is read on top of what its place holds. */
  function ReadValue(t: Type, base: Value, b: Bytes): (r: Read<Value>)
    ensures r.Read? ==> |r.rest| < |b|
    decreases t, 0, 0
  {
    match t
    case Number(s) =>
      (match ReadScalar(s, b) case Error => Error case Read(v, rest) => Read(Int(v), rest))
    case Blob(max) =>
      (match ReadDelimited(b) case Error => Error case Read(d, rest) => if |d| > max then Error else Read(Data(d), rest))
    case Text(size) =>
      (match ReadDelimited(b) case Error => Error case Read(d, rest) => if |d| + 1 > size then Error else Read(Data(d), rest))
    case FixedBlob(size) =>
      (match ReadDelimited(b)
       case Error => Error
       case Read(d, rest) =>
         if d == [] then Read(Data(seq(size, i => 0)), rest) else if |d| != size then Error else Read(Data(d), rest))
    case Sub(fields) =>
      match ReadDelimited(b)
      case Error => Error
      case Read(d, rest) =>
        if !(base.Msg? && Shaped(fields, base.slots)) then Error
        else
          match ReadMessage(fields, base.slots, {}, d)
          case None => Error
          case Some(slots) => Read(Msg(slots), rest)
  }

  /** The items of a packed array, as many as there is room for. */
  function ReadPacked(s: Scalar, max: nat, vs: seq<Value>, b: Bytes): Option<seq<Value>>
    decreases |b|
  {
    if b == [] then Some(vs)
    else if |vs| >= max then None
    else match ReadScalar(s, b) case Error => None case Read(v, rest) => ReadPacked(s, max, vs + [Int(v)], rest)
  }

  /** A field's value read into its slot. */
  function ReadSlot(f: Field, wireType: nat, s: Slot, b: Bytes): (r: Read<Slot>)
    requires SlotShaped(f.rule, s)
    ensures r.Read? ==> SlotShaped(f.rule, r.value) && |r.rest| < |b|
    decreases f, 0, 0
  {
    match f.rule
    case Required => (match ReadValue(f.typ, s.v, b) case Error => Error case Read(v, rest) => Read(One(v), rest))
    case Implicit => (match ReadValue(f.typ, s.v, b) case Error => Error case Read(v, rest) => Read(One(v), rest))
    case Optional =>
      var base := if s.o.Some? then s.o.value else InitialValue(f.typ, f.init);
      (match ReadValue(f.typ, base, b) case Error => Error case Read(v, rest) => Read(Maybe(Some(v)), rest))
    case OneOf(_) =>
      (match ReadValue(f.typ, InitialValue(f.typ, None), b)
       case Error => Error
       case Read(v, rest) => Read(Maybe(Some(v)), rest))
    case Repeated(max) =>
      if wireType == WT_STRING && f.typ.Number? then
        (match ReadDelimited(b)
         case Error => Error
         case Read(d, rest) =>
           match ReadPacked(f.typ.scalar, max, s.vs, d) case None => Error case Some(vs) => Read(Many(vs), rest))
      else if |s.vs| >= max then Error
      else
        match ReadValue(f.typ, InitialValue(f.typ, None), b)
        case Error => Error
        case Read(v, rest) => Read(Many(s.vs + [v]), rest)
  }

  /** Setting a field of a union takes the place of the field that was there. */
  function Placed(fs: Fields, ms: seq<Slot>, i: nat, s: Slot): (r: seq<Slot>)
    requires Shaped(fs, ms) && i < |fs| && SlotShaped(fs[i].rule, s)
    ensures Shaped(fs, r)
  {
    seq(|ms|, j requires 0 <= j < |ms| =>
      if j == i then s
      else if fs[i].rule.OneOf? && fs[j].rule == fs[i].rule then Maybe(None)
      else ms[j])
  }

  /** Passes over a field nobody knows. */
  function Skip(wireType: nat, b: Bytes): (r: Option<Bytes>)
    ensures r.Some? ==> |r.value| < |b|
  {
    if wireType == WT_VARINT then SkipVarint(b)
    else if wireType == WT_64BIT then (match ReadBytes(b, 8) case Error => None case Read(_, rest) => Some(rest))
    else if wireType == WT_STRING then (match ReadDelimited(b) case Error => None case Read(_, rest) => Some(rest))
    else if wireType == WT_32BIT then (match ReadBytes(b, 4) case Error => None case Read(_, rest) => Some(rest))
    else None
  }

  function SkipVarint(b: Bytes): (r: Option<Bytes>)
    ensures r.Some? ==> |r.value| < |b|
  {
    if b == [] then None else if b[0] < 128 then Some(b[1..]) else SkipVarint(b[1..])
  }

  predicate AllRequiredSeen(fs: Fields, seen: set<nat>) {
    forall i :: 0 <= i < |fs| && fs[i].rule.Required? ==> i in seen
  }

  /** Reads fields until the input or the message ends; every required field must have come. */
  function ReadMessage(fs: Fields, ms: seq<Slot>, seen: set<nat>, b: Bytes): (r: Option<seq<Slot>>)
    requires Shaped(fs, ms)
    ensures r.Some? ==> Shaped(fs, r.value)
    decreases fs, 1, |b|
  {
    if b == [] then (if AllRequiredSeen(fs, seen) then Some(ms) else None)
    else
      match ReadKey(b)
      case (Broken, _) => None
      case (End, _) => if AllRequiredSeen(fs, seen) then Some(ms) else None
      case (Key(tag, wireType), rest) =>
        KeyShortens(b);
        var i := Find(fs, tag);
        if i == |fs| then
          // the table of an empty message starts with its terminator, which "matches" field 0 and is no field
          if fs == [] && tag == 0 then None
          else match Skip(wireType, rest) case None => None case Some(rest') => ReadMessage(fs, ms, seen, rest')
        else
          match ReadSlot(fs[i], wireType, ms[i], rest)
          case Error => None
          case Read(s, rest') =>
            ReadMessage(fs, Placed(fs, ms, i, s), if fs[i].rule.Required? then seen + {i} else seen, rest')
  }

  /** Reading on behind a field that was skipped. */
  function SkippedOver(fs: Fields, ms: seq<Slot>, seen: set<nat>, wireType: nat, rest: Bytes): Option<seq<Slot>>
    requires Shaped(fs, ms)
  {
    match Skip(wireType, rest) case None => None case Some(rest') => ReadMessage(fs, ms, seen, rest')
  }

  /** A field nobody knows is skipped, except field 0 of an empty message: then the decoder fails
      where skipping would have succeeded. */
  lemma {:induction false} UnknownIsSkippedExactly(fs: Fields, ms: seq<Slot>, seen: set<nat>, b: Bytes, tag: nat,
                                                   wireType: nat, rest: Bytes)
    requires Shaped(fs, ms) && b != [] && ReadKey(b) == (Key(tag, wireType), rest) && Find(fs, tag) == |fs|
    ensures ReadMessage(fs, ms, seen, b) == SkippedOver(fs, ms, seen, wireType, rest)
       <==> fs != [] || tag != 0 || SkippedOver(fs, ms, seen, wireType, rest).None?
  {
    KeyShortens(b);
  }

  /** Such an input: field 0, with nothing in it. */
  lemma {:induction false} EmptyMessageRefusesFieldZero()
    ensures ReadKey([2, 0]) == (Key(0, 2), [0]) && Skip(2, [0]) == Some([])
    ensures SkippedOver([], [], {}, 2, [0]) == Some([]) && ReadMessage([], [], {}, [2, 0]) == None
  {
    assert ReadKey([2, 0]) == (Key(0, 2), [0]);
  }

  lemma KeyShortens(b: Bytes)
    requires ReadKey(b).0.Key?
    ensures |ReadKey(b).1| < |b|
  {
  }

  /** How many of the first k fields are required. */
  function RequiredBefore(fs: Fields, k: nat): (n: nat)
    requires k <= |fs|
    ensures n <= k
  {
    if k == 0 then 0 else RequiredBefore(fs, k - 1) + if fs[k - 1].rule.Required? then 1 else 0
  }

  const MAX_REQUIRED_FIELDS: nat := 64

  /** For so many required fields the final test is defined: it reads one word beyond the full
      ones, of two, and shifts by less than a word. */
  predicate Testable(n: nat) {
    n == 0 || (n < MAX_REQUIRED_FIELDS && n % 32 != 0)
  }
}
