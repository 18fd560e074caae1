/** Internal keys: what an entry of the store is and how entries are ordered. */
module Format {
  type byte = x: int | 0 <= x < 256
  type Bytes = seq<byte>

  /** A user key, by its place in the comparator's order.  Every run handles finitely many
      keys, and `EmbedsInIntegers` shows that finitely many keys of any strict total order
      can be numbered without changing a single comparison. */
  type UserKey = int

  /** The largest sequence number: 56 bits, the low eight of a tag hold the kind. */
  const MAX_SEQUENCE: nat := 0xFF_FFFF_FFFF_FFFF

  datatype Option<+T> = None | Some(value: T)

  datatype Kind = Deletion | Put

  datatype IKey = IKey(user: UserKey, sequence: nat, kind: Kind)

  datatype Entry = Entry(key: IKey, value: Bytes)

  /** The internal order: user keys ascending, then sequence numbers descending, then
      kinds descending. */
  predicate Less(a: IKey, b: IKey) {
    a.user < b.user ||
    (a.user == b.user && (a.sequence > b.sequence || (a.sequence == b.sequence && a.kind == Put && b.kind == Deletion)))
  }

  /** The key that sorts at or before every entry of `user` with sequence number <= `sequence`. */
  function SeekKey(user: UserKey, sequence: nat): IKey {
    IKey(user, sequence, Put)
  }

  ghost predicate Sorted(es: seq<Entry>) {
    forall i, j :: 0 <= i < j < |es| ==> Less(es[i].key, es[j].key)
  }

  /** The position of the first entry at or after `t`, or |es|. */
  function LowerBound(es: seq<Entry>, t: IKey): (n: nat)
    ensures n <= |es|
    ensures forall i :: 0 <= i < n ==> Less(es[i].key, t)
    ensures n < |es| ==> !Less(es[n].key, t)
  {
    if es == [] || !Less(es[0].key, t) then 0
    else
      var n := LowerBound(es[1..], t);
      assert forall i :: 0 < i < 1 + n ==> es[i] == es[1..][i - 1];
      1 + n
  }

  lemma {:induction false} LowerBoundUnique(es: seq<Entry>, t: IKey, n: nat)
    requires Sorted(es) && n <= |es|
    requires n > 0 ==> Less(es[n - 1].key, t)
    requires n < |es| ==> !Less(es[n].key, t)
    ensures LowerBound(es, t) == n
  {
    assert forall i :: 0 <= i < n - 1 ==> Less(es[i].key, es[n - 1].key);
  }

  /** A strict total order on the keys of a finite set. */
  ghost predicate StrictOrder<K(!new)>(keys: set<K>, less: (K, K) -> bool) {
    && (forall a | a in keys :: !less(a, a))
    && (forall a, b | a in keys && b in keys && a != b :: less(a, b) || less(b, a))
    && (forall a, b, c | a in keys && b in keys && c in keys && less(a, b) && less(b, c) :: less(a, c))
  }

  ghost function Rank<K(!new)>(keys: set<K>, less: (K, K) -> bool, k: K): nat {
    |set b | b in keys && less(b, k)|
  }

  lemma RankIsMonotone<K(!new)>(keys: set<K>, less: (K, K) -> bool, a: K, b: K)
    requires StrictOrder(keys, less) && a in keys && b in keys && less(a, b)
    ensures Rank(keys, less, a) < Rank(keys, less, b)
  {
    var below := set x | x in keys && less(x, a);
    var above := set x | x in keys && less(x, b);
    assert below < above by { assert a in above && a !in below; }
    SmallerSet(below, above);
  }

  lemma SmallerSet<K>(a: set<K>, b: set<K>)
    requires a < b
    ensures |a| < |b|
  {
    var rest := b - a;
    assert b == a + rest && rest != {};
    assert |b| == |a| + |rest|;
  }

  /** Numbering the keys by rank keeps every comparison: integers stand for the keys of any order. */
  lemma EmbedsInIntegers<K(!new)>(keys: set<K>, less: (K, K) -> bool)
    requires StrictOrder(keys, less)
    ensures forall a, b | a in keys && b in keys ::
              less(a, b) <==> Rank(keys, less, a) < Rank(keys, less, b)
  {
    forall a, b | a in keys && b in keys
      ensures less(a, b) <==> Rank(keys, less, a) < Rank(keys, less, b)
    {
      if less(a, b) { RankIsMonotone(keys, less, a, b); }
      else if a != b { RankIsMonotone(keys, less, b, a); }
    }
  }
}
