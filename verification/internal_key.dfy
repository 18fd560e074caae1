/** Internal keys as bytes: a user key with a tag of eight bytes behind it. */
module InternalKeys {
  import opened Format
  import opened Coding
  import opened Blocks
  import opened Separators

  const TAG: nat := 8

  /** Sequence number and kind in one number. */
  function Packed(sequence: nat, kind: Kind): nat {
    sequence * 256 + if kind == Put then 1 else 0
  }

  const SEEK_TAG: nat := Packed(MAX_SEQUENCE, Put)

  function Encoded(user: Bytes, tag: nat): (r: Bytes)
    ensures |r| == |user| + TAG
  {
    user + Fixed64(tag)
  }

  function UserOf(k: Bytes): Bytes
    requires |k| >= TAG
  {
    k[..|k| - TAG]
  }

  function TagOf(k: Bytes): nat
    requires |k| >= TAG
  {
    Unfixed(k[|k| - TAG..])
  }

  /** User keys ascending, tags descending.  Strings too short to be internal keys, which the
      store never compares, are put in front to make the order total. */
  predicate InternalLess(a: Bytes, b: Bytes) {
    if |a| < TAG || |b| < TAG then |a| < TAG && (|b| >= TAG || LexLess(a, b))
    else LexLess(UserOf(a), UserOf(b)) || (UserOf(a) == UserOf(b) && TagOf(a) > TagOf(b))
  }

  lemma {:induction false} UnfixedInjective(a: Bytes, b: Bytes)
    requires |a| == |b| && Unfixed(a) == Unfixed(b)
    ensures a == b
  {
    if a != [] {
      assert a[0] == Unfixed(a) % 256 == b[0];
      UnfixedInjective(a[1..], b[1..]);
      assert a == [a[0]] + a[1..] && b == [b[0]] + b[1..];
    }
  }

  lemma InternalTransitive(a: Bytes, b: Bytes, c: Bytes)
    requires InternalLess(a, b) && InternalLess(b, c)
    ensures InternalLess(a, c)
  {
    if |a| < TAG {
      if |c| < TAG { LexTransitive(a, b, c); }
    } else if LexLess(UserOf(a), UserOf(b)) && LexLess(UserOf(b), UserOf(c)) {
      LexTransitive(UserOf(a), UserOf(b), UserOf(c));
    }
  }

  lemma InternalTotal(a: Bytes, b: Bytes)
    ensures a == b || InternalLess(a, b) || InternalLess(b, a)
  {
    if |a| < TAG && |b| < TAG {
      LexTotal(a, b);
    } else if |a| >= TAG && |b| >= TAG {
      LexTotal(UserOf(a), UserOf(b));
      if UserOf(a) == UserOf(b) && TagOf(a) == TagOf(b) {
        UnfixedInjective(a[|a| - TAG..], b[|b| - TAG..]);
        assert a == UserOf(a) + a[|a| - TAG..] && b == UserOf(b) + b[|b| - TAG..];
      }
    }
  }

  lemma InternalIsOrder()
    ensures IsOrder(InternalLess)
  {
    forall a ensures !InternalLess(a, a) {
      if |a| < TAG { LexIrreflexive(a); } else { LexIrreflexive(UserOf(a)); }
    }
    forall a, b, c | InternalLess(a, b) && InternalLess(b, c) ensures InternalLess(a, c) { InternalTransitive(a, b, c); }
    forall a, b ensures a == b || InternalLess(a, b) || InternalLess(b, a) { InternalTotal(a, b); }
  }

  lemma EncodedParts(user: Bytes, tag: nat)
    requires tag < TWO_64
    ensures UserOf(Encoded(user, tag)) == user && TagOf(Encoded(user, tag)) == tag
  {
    Fixed64RoundTrip(tag);
    assert Encoded(user, tag)[|user|..] == Fixed64(tag);
  }

  /** On encoded keys the byte order is the order of the model's keys: user keys ascending, then
      sequence numbers descending, then kinds descending. */
  lemma {:induction false} EncodedOrder(u: Bytes, s: nat, k: Kind, u': Bytes, s': nat, k': Kind)
    requires s <= MAX_SEQUENCE && s' <= MAX_SEQUENCE
    ensures InternalLess(Encoded(u, Packed(s, k)), Encoded(u', Packed(s', k'))) <==>
              LexLess(u, u') || (u == u' && (s > s' || (s == s' && k == Put && k' == Deletion)))
  {
    EncodedParts(u, Packed(s, k));
    EncodedParts(u', Packed(s', k'));
  }

  /** Shortens the user part; when that made it larger, the largest tag comes behind it. */
  function InternalSeparator(start: Bytes, limit: Bytes): Bytes {
    if |start| < TAG || |limit| < TAG then start
    else
      var tmp := ShortestSeparator(UserOf(start), UserOf(limit));
      if |tmp| < |UserOf(start)| && LexLess(UserOf(start), tmp) then Encoded(tmp, SEEK_TAG) else start
  }

  method FindInternalSeparator(start: Bytes, limit: Bytes) returns (r: Bytes)
    requires |start| >= TAG && |limit| >= TAG
    ensures r == InternalSeparator(start, limit) && Separates(InternalLess, start, limit, r) && |r| <= |start|
  {
    var tmp := FindShortestSeparator(UserOf(start), UserOf(limit));
    r := start;
    if |tmp| < |UserOf(start)| && LexLess(UserOf(start), tmp) {
      r := Encoded(tmp, SEEK_TAG);
    }
    InternalSeparatorSeparates(start, limit);
  }

  lemma InternalSeparatorSeparates(start: Bytes, limit: Bytes)
    ensures Separates(InternalLess, start, limit, InternalSeparator(start, limit))
  {
    InternalIsOrder();
    var r := InternalSeparator(start, limit);
    assert !InternalLess(start, start);
    if r != start {
      var u, v := UserOf(start), UserOf(limit);
      var tmp := ShortestSeparator(u, v);
      EncodedParts(tmp, SEEK_TAG);
      SeparatorSeparates(u, v);
      NotBoth(u, tmp);
      LexIrreflexive(u);
      SeparatorOfEqual(u);
    }
  }

  /** Equal user keys are not shortened. */
  lemma SeparatorOfEqual(u: Bytes)
    ensures ShortestSeparator(u, u) == u
  {
    DifferenceUnique(u, u, |u|);
  }

  function InternalSuccessor(key: Bytes): Bytes {
    if |key| < TAG then key
    else
      var tmp := ShortSuccessor(UserOf(key));
      if |tmp| < |UserOf(key)| && LexLess(UserOf(key), tmp) then Encoded(tmp, SEEK_TAG) else key
  }

  method FindInternalSuccessor(key: Bytes) returns (r: Bytes)
    requires |key| >= TAG
    ensures r == InternalSuccessor(key) && !InternalLess(r, key) && |r| <= |key|
  {
    var tmp := FindShortSuccessor(UserOf(key));
    r := key;
    if |tmp| < |UserOf(key)| && LexLess(UserOf(key), tmp) {
      r := Encoded(tmp, SEEK_TAG);
    }
    InternalSuccessorNotBelow(key);
  }

  lemma InternalSuccessorNotBelow(key: Bytes)
    ensures !InternalLess(InternalSuccessor(key), key)
  {
    InternalIsOrder();
    assert !InternalLess(key, key);
    if InternalSuccessor(key) != key {
      var tmp := ShortSuccessor(UserOf(key));
      EncodedParts(tmp, SEEK_TAG);
      NotBoth(UserOf(key), tmp);
      LexIrreflexive(tmp);
    }
  }

  /** The user keys of a finite set, numbered in their order, stand for them in the store modules:
      internal keys compare as their encodings do. */
  lemma {:induction false} RanksStandForKeys(keys: set<Bytes>, a: Bytes, s: nat, k: Kind, b: Bytes, s': nat, k': Kind)
    requires a in keys && b in keys && s <= MAX_SEQUENCE && s' <= MAX_SEQUENCE
    ensures InternalLess(Encoded(a, Packed(s, k)), Encoded(b, Packed(s', k')))
       <==> Less(IKey(Rank(keys, LexLess, a), s, k), IKey(Rank(keys, LexLess, b), s', k'))
  {
    LexIsOrder();
    EmbedsInIntegers(keys, LexLess);
    EncodedOrder(a, s, k, b, s', k');
  }
}
