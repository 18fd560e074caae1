/** Key order on bytes, and the short keys that separate one key from the next. */
module Separators {
  import opened Format
  import opened Coding
  import opened Blocks

  /** The bytewise order: the first difference decides, and a prefix comes first. */
  predicate LexLess(a: Bytes, b: Bytes) {
    b != [] && (a == [] || a[0] < b[0] || (a[0] == b[0] && LexLess(a[1..], b[1..])))
  }

  lemma {:induction false} LexIrreflexive(a: Bytes)
    ensures !LexLess(a, a)
  {
    if a != [] { LexIrreflexive(a[1..]); }
  }

  lemma {:induction false} LexTransitive(a: Bytes, b: Bytes, c: Bytes)
    requires LexLess(a, b) && LexLess(b, c)
    ensures LexLess(a, c)
  {
    if a != [] && a[0] == b[0] == c[0] { LexTransitive(a[1..], b[1..], c[1..]); }
  }

  lemma {:induction false} LexTotal(a: Bytes, b: Bytes)
    ensures a == b || LexLess(a, b) || LexLess(b, a)
  {
    if a != [] && b != [] && a[0] == b[0] {
      LexTotal(a[1..], b[1..]);
      assert a == [a[0]] + a[1..] && b == [b[0]] + b[1..];
    }
  }

  lemma LexIsOrder()
    ensures IsOrder(LexLess)
  {
    forall a { LexIrreflexive(a); }
    forall a, b, c | LexLess(a, b) && LexLess(b, c) { LexTransitive(a, b, c); }
    forall a, b { LexTotal(a, b); }
  }

  /** Keys that agree up to a point are ordered by what they hold there. */
  lemma {:induction false} LexAt(a: Bytes, b: Bytes, d: nat)
    requires Agree(a, b, d)
    ensures d == |a| < |b| ==> LexLess(a, b)
    ensures d < |a| && d < |b| ==> (a[d] < b[d] ==> LexLess(a, b))
  {
    if d > 0 {
      assert a[..d][0] == b[..d][0];
      assert a[1..][..d - 1] == a[..d][1..] && b[1..][..d - 1] == b[..d][1..];
      LexAt(a[1..], b[1..], d - 1);
    }
  }

  /** What a separator is for: r may stand for start in an index, in front of limit. */
  ghost predicate Separates(less: Comparator, start: Bytes, limit: Bytes, r: Bytes) {
    !less(r, start) && (less(start, limit) ==> less(r, limit))
  }

  /** Where two keys first differ, or the length of the shorter one. */
  method FirstDifference(a: Bytes, b: Bytes) returns (d: nat)
    ensures Agree(a, b, d) && (d == |a| || d == |b| || a[d] != b[d])
  {
    var minLength := if |a| < |b| then |a| else |b|;
    d := 0;
    while d < minLength && a[d] == b[d]
      invariant d <= minLength && Agree(a, b, d)
    {
      d := d + 1;
    }
  }

  /** Cuts `start` behind the first difference when the byte there can be raised by one. */
  method FindShortestSeparator(start: Bytes, limit: Bytes) returns (r: Bytes)
    ensures r == ShortestSeparator(start, limit)
    ensures Separates(LexLess, start, limit, r) && |r| <= |start|
  {
    var d := FirstDifference(start, limit);
    DifferenceUnique(start, limit, d);
    r := start;
    if d < |start| && d < |limit| {
      if start[d] < 0xff && start[d] + 1 < limit[d] {
        r := r[d := start[d] + 1];
        r := r[..d + 1];
        assert r == start[..d] + [start[d] + 1];
      }
    }
    SeparatorSeparates(start, limit);
  }

  function {:tailrecursion false} DiffersAt(a: Bytes, b: Bytes): (d: nat)
    ensures d <= |a| && d <= |b|
  {
    if a == [] || b == [] || a[0] != b[0] then 0 else 1 + DiffersAt(a[1..], b[1..])
  }

  function ShortestSeparator(start: Bytes, limit: Bytes): Bytes {
    var d := DiffersAt(start, limit);
    if d < |start| && d < |limit| && start[d] < 0xff && start[d] + 1 < limit[d] then start[..d] + [start[d] + 1]
    else start
  }

  lemma {:induction false} DifferenceUnique(a: Bytes, b: Bytes, d: nat)
    requires Agree(a, b, d) && (d == |a| || d == |b| || a[d] != b[d])
    ensures DiffersAt(a, b) == d
  {
    if d > 0 {
      assert a[..d][0] == b[..d][0];
      assert a[1..][..d - 1] == a[..d][1..] && b[1..][..d - 1] == b[..d][1..];
      DifferenceUnique(a[1..], b[1..], d - 1);
    }
  }

  lemma {:induction false} DifferenceAgrees(a: Bytes, b: Bytes)
    ensures Agree(a, b, DiffersAt(a, b))
  {
    var d := DiffersAt(a, b);
    if d > 0 {
      DifferenceAgrees(a[1..], b[1..]);
      assert a[..d] == [a[0]] + a[1..][..d - 1] && b[..d] == [b[0]] + b[1..][..d - 1];
    }
  }

  /** The separator of two keys lies at or after the first and, if that is the smaller, before
      the second. */
  lemma SeparatorSeparates(start: Bytes, limit: Bytes)
    ensures Separates(LexLess, start, limit, ShortestSeparator(start, limit))
  {
    var d, r := DiffersAt(start, limit), ShortestSeparator(start, limit);
    LexIrreflexive(start);
    if r != start {
      DifferenceAgrees(start, limit);
      assert Agree(start, r, d) && Agree(r, limit, d);
      LexAt(start, r, d);
      LexAt(r, limit, d);
      NotBoth(start, r);
    }
  }

  lemma {:induction false} NotBoth(a: Bytes, b: Bytes)
    requires LexLess(a, b)
    ensures !LexLess(b, a)
  {
    if LexLess(b, a) {
      LexTransitive(a, b, a);
      LexIrreflexive(a);
    }
  }

  /** Raises the first byte that is not 0xff and cuts the key behind it. */
  method FindShortSuccessor(key: Bytes) returns (r: Bytes)
    ensures r == ShortSuccessor(key)
    ensures !LexLess(r, key) && |r| <= |key|
  {
    SuccessorNotBelow(key);
    var i := 0;
    r := key;
    while i < |key|
      invariant i <= |key| && r == key
      invariant ShortSuccessor(key) == key[..i] + ShortSuccessor(key[i..])
    {
      SuccessorAt(key, i);
      if key[i] != 0xff {
        r := r[i := key[i] + 1];
        r := r[..i + 1];
        return;
      }
      i := i + 1;
    }
  }

  /** What the successor does at byte i. */
  lemma {:induction false} SuccessorAt(key: Bytes, i: nat)
    requires i < |key|
    ensures key[i] != 0xff ==> key[..i] + ShortSuccessor(key[i..]) == key[i := key[i] + 1][..i + 1]
    ensures key[i] == 0xff ==> key[..i] + ShortSuccessor(key[i..]) == key[..i + 1] + ShortSuccessor(key[i + 1..])
  {
    if key[i] == 0xff {
      assert key[i..][1..] == key[i + 1..];
      assert key[..i] + ([0xff] + ShortSuccessor(key[i + 1..])) == key[..i + 1] + ShortSuccessor(key[i + 1..]);
    } else {
      assert key[..i] + [key[i] + 1] == key[i := key[i] + 1][..i + 1];
    }
  }

  function ShortSuccessor(key: Bytes): (r: Bytes)
    ensures |r| <= |key|
  {
    if key == [] then [] else if key[0] != 0xff then [key[0] + 1] else [0xff] + ShortSuccessor(key[1..])
  }

  lemma {:induction false} SuccessorNotBelow(key: Bytes)
    ensures !LexLess(ShortSuccessor(key), key)
  {
    if key != [] && key[0] == 0xff {
      SuccessorNotBelow(key[1..]);
      assert ([0xff] + ShortSuccessor(key[1..]))[1..] == ShortSuccessor(key[1..]);
    }
  }
}
