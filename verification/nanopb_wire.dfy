/** Protocol Buffers on the wire: tags and scalar values, as nanopb writes and reads them. */
module NanopbWire {
  import opened Format
  import opened Coding

  /** The size of an integer field in the message struct. */
  datatype Width = W8 | W16 | W32 | W64

  datatype Scalar = Varint(width: Width) | UVarint(width: Width) | SVarint(width: Width) | Fixed32 | Fixed64

  /** Half of the values an integer of that width can have. */
  function Half(w: Width): (h: int)
    ensures h > 0
  {
    match w case W8 => 0x80 case W16 => 0x8000 case W32 => 0x8000_0000 case W64 => 0x8000_0000_0000_0000
  }

  /** The values a field of this type can hold. */
  predicate InRange(s: Scalar, v: int) {
    match s
    case Varint(w) => -Half(w) <= v < Half(w)
    case SVarint(w) => -Half(w) <= v < Half(w)
    case UVarint(w) => 0 <= v < 2 * Half(w)
    case Fixed32 => 0 <= v < TWO_32
    case Fixed64 => 0 <= v < TWO_64
  }

  const WT_VARINT: nat := 0
  const WT_64BIT: nat := 1
  const WT_STRING: nat := 2
  const WT_32BIT: nat := 5

  function WireType(s: Scalar): nat {
    match s case Fixed32 => WT_32BIT case Fixed64 => WT_64BIT case _ => WT_VARINT
  }

  function ZigZag(v: int): int {
    if v < 0 then -2 * v - 1 else 2 * v
  }

  function UnZigZag(n: nat): int {
    if n % 2 == 1 then -(n / 2) - 1 else n / 2
  }

  /** A 64-bit pattern as a signed number of the width, the rest cut off. */
  function Signed(w: Width, v: int): int {
    var m := v % (2 * Half(w));
    if m < Half(w) then m else m - 2 * Half(w)
  }

  function ScalarBytes(s: Scalar, v: int): Bytes
    requires InRange(s, v)
  {
    match s
    case Varint(_) => Coding.Varint(v % TWO_64)
    case UVarint(_) => Coding.Varint(v)
    case SVarint(_) => Coding.Varint(ZigZag(v))
    case Fixed32 => Coding.Fixed32(v)
    case Fixed64 => Coding.Fixed64(v)
  }

  /** A value and the bytes behind it, or a decoding error. */
  datatype Read<T> = Read(value: T, rest: Bytes) | Error

  function ReadVarint(b: Bytes): (r: Read<nat>)
    ensures r.Read? ==> |r.rest| < |b|
  {
    match GetVarint64(b) case None => Error case Some((v, n)) => Read(v, b[n..])
  }

  function ReadVarint32(b: Bytes): (r: Read<nat>)
    ensures r.Read? ==> |r.rest| < |b|
  {
    match GetVarint32(b) case None => Error case Some((v, n)) => Read(v, b[n..])
  }

  /** n bytes off the front. */
  function ReadBytes(b: Bytes, n: nat): (r: Read<Bytes>)
    ensures r.Read? ==> |r.rest| + n == |b| && |r.value| == n
  {
    if |b| < n then Error else Read(b[..n], b[n..])
  }

  /** A decoded number is cast to the width of its field and must survive that. */
  function Cast(s: Scalar, value: nat): Option<int> {
    match s
    case Varint(w) =>
      var v := Signed(if w == W64 then W64 else W32, value);
      if Signed(w, v) == v then Some(v) else None
    case UVarint(w) => if value < 2 * Half(w) then Some(value) else None
    case SVarint(w) =>
      var v := UnZigZag(value);
      if Signed(w, v) == v then Some(v) else None
    case _ => Some(value)
  }

  function ReadScalar(s: Scalar, b: Bytes): (r: Read<int>)
    ensures r.Read? ==> |r.rest| < |b|
  {
    match s
    case Fixed32 => (match ReadBytes(b, 4) case Error => Error case Read(x, rest) => Read(Unfixed(x) % TWO_32, rest))
    case Fixed64 => (match ReadBytes(b, 8) case Error => Error case Read(x, rest) => Read(Unfixed(x) % TWO_64, rest))
    case _ =>
      match ReadVarint(b)
      case Error => Error
      case Read(value, rest) =>
        match Cast(s, value) case None => Error case Some(v) => Read(v, rest)
  }

  lemma {:induction false} ReadsVarint(v: nat, rest: Bytes)
    requires v < TWO_64
    ensures ReadVarint(Coding.Varint(v) + rest) == Read(v, rest)
  {
    Varint64RoundTrip(v, rest);
    assert (Coding.Varint(v) + rest)[|Coding.Varint(v)|..] == rest;
  }

  lemma {:induction false} ReadsVarint32(v: nat, rest: Bytes)
    requires v < TWO_32
    ensures ReadVarint32(Coding.Varint(v) + rest) == Read(v, rest)
  {
    Varint32RoundTrip(v, rest);
    assert (Coding.Varint(v) + rest)[|Coding.Varint(v)|..] == rest;
  }

  lemma ReadsBytes(b: Bytes, rest: Bytes)
    ensures ReadBytes(b + rest, |b|) == Read(b, rest)
  {
    assert (b + rest)[..|b|] == b && (b + rest)[|b|..] == rest;
  }

  lemma ZigZagRoundTrip(v: int)
    requires -Half(W64) <= v < Half(W64)
    ensures 0 <= ZigZag(v) < TWO_64 && UnZigZag(ZigZag(v)) == v
  {
  }

  /** Signed values survive being written as 64-bit patterns and cast back, on every width. */
  lemma CastRoundTrip(s: Scalar, v: int)
    requires InRange(s, v)
    ensures Cast(s, match s case Varint(_) => v % TWO_64 case SVarint(_) => ZigZag(v) case _ => v) == Some(v)
    ensures 0 <= (match s case Varint(_) => v % TWO_64 case SVarint(_) => ZigZag(v) case _ => v) < TWO_64
  {
    match s
    case Varint(w) => SignedKeeps(w, v);
    case SVarint(w) => ZigZagRoundTrip(v);
    case _ =>
  }

  lemma SignedKeeps(w: Width, v: int)
    requires -Half(w) <= v < Half(w)
    ensures Signed(w, v) == v && Signed(if w == W64 then W64 else W32, v % TWO_64) == v
  {
    SignedOf(w, v);
    if w == W64 {
      SignedOf(W64, v);
      assert (v % TWO_64) % TWO_64 == v % TWO_64;
    } else {
      SignedOf(W32, v);
      LowBits(v);
    }
  }

  lemma SignedOf(w: Width, v: int)
    requires -Half(w) <= v < Half(w)
    ensures Signed(w, v) == v
  {
    match w
    case W8 => assert v % 0x100 == if v < 0 then v + 0x100 else v;
    case W16 => assert v % 0x1_0000 == if v < 0 then v + 0x1_0000 else v;
    case W32 => assert v % TWO_32 == if v < 0 then v + TWO_32 else v;
    case W64 => assert v % TWO_64 == if v < 0 then v + TWO_64 else v;
  }

  lemma LowBits(v: int)
    ensures (v % TWO_64) % TWO_32 == v % TWO_32
  {
    var q := v / TWO_64;
    assert v == q * TWO_64 + v % TWO_64;
    assert v == (q * TWO_32) * TWO_32 + v % TWO_64;
    ModOfSum(v % TWO_64, q * TWO_32);
  }

  lemma ModOfSum(a: int, k: int)
    ensures (k * TWO_32 + a) % TWO_32 == a % TWO_32
  {
    var q := a / TWO_32;
    assert a == q * TWO_32 + a % TWO_32;
    assert k * TWO_32 + a == (k + q) * TWO_32 + a % TWO_32;
  }

  /** Every scalar is read back as it was written, in front of anything. */
  lemma ScalarRoundTrip(s: Scalar, v: int, rest: Bytes)
    requires InRange(s, v)
    ensures ReadScalar(s, ScalarBytes(s, v) + rest) == Read(v, rest)
  {
    match s
    case Fixed32 => ReadsBytes(Coding.Fixed32(v), rest); ReadsFixed32(Coding.Fixed32(v), v);
    case Fixed64 => ReadsBytes(Coding.Fixed64(v), rest); ReadsFixed64(Coding.Fixed64(v), v);
    case Varint(_) => CastRoundTrip(s, v); ReadsVarint(v % TWO_64, rest);
    case UVarint(_) => CastRoundTrip(s, v); ReadsVarint(v, rest);
    case SVarint(_) => CastRoundTrip(s, v); ReadsVarint(ZigZag(v), rest);
  }

  /** Field number and wire type in one number. */
  function TagBytes(tag: nat, wireType: nat): (r: Bytes)
    requires wireType < 8
    ensures r != []
  {
    Coding.Varint(8 * tag + wireType)
  }

  datatype Key = Key(tag: nat, wireType: nat) | End | Broken

  /** A field's key; a zero ends the message, and so does the end of the input. */
  function ReadKey(b: Bytes): (Key, Bytes) {
    match ReadVarint32(b)
    case Error => (if VarintRunsOut(b) then End else Broken, [])
    case Read(n, rest) => if n == 0 then (End, rest) else (Key(n / 8, n % 8), rest)
  }

  /** The input ends inside the number. */
  predicate VarintRunsOut(b: Bytes) {
    |b| <= 5 && forall i :: 0 <= i < |b| ==> b[i] >= 128
  }

  lemma ReadsKey(tag: nat, wireType: nat, rest: Bytes)
    requires 0 < tag < 0x2000_0000 && wireType < 8
    ensures ReadKey(TagBytes(tag, wireType) + rest) == (Key(tag, wireType), rest)
  {
    ReadsVarint32(8 * tag + wireType, rest);
  }
}
