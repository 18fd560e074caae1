/** What a read must answer: the newest entry of the user key at or below the snapshot,
    nothing when there is none or it is a deletion. */
module SnapshotSpec {
  import opened Format

  /** e is the newest entry of user key k with sequence number at most s. */
  ghost predicate Newest(es: iset<Entry>, k: UserKey, s: nat, e: Entry) {
    && e in es && e.key.user == k && e.key.sequence <= s
    && forall x :: x in es && x.key.user == k && x.key.sequence <= s ==> x.key.sequence <= e.key.sequence
  }

  /** A read of k at snapshot s answers v. */
  ghost predicate Shows(es: iset<Entry>, k: UserKey, s: nat, v: Bytes) {
    exists e :: Newest(es, k, s, e) && e.key.kind == Put && e.value == v
  }

  /** A read of k at snapshot s answers r, None standing for "not found". */
  ghost predicate Reads(es: iset<Entry>, k: UserKey, s: nat, r: Option<Bytes>) {
    match r
    case Some(v) => Shows(es, k, s, v)
    case None => forall v :: !Shows(es, k, s, v)
  }

  ghost function Entries(es: seq<Entry>): iset<Entry> {
    iset e | e in es
  }

  /** Every entry of a is newer than every entry of b with the same user key. */
  ghost predicate Newer(a: seq<Entry>, b: seq<Entry>) {
    forall x, y {:trigger x in a, y in b} :: x in a && y in b && x.key.user == y.key.user ==> x.key.sequence > y.key.sequence
  }
}
