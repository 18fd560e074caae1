/** The user-facing iterator: `DBIter` turns a merged list of internal entries into a cursor
    over the (user key, value) pairs visible at one sequence number. */
module DBIterator {
  import opened Format
  import opened Merger
  import opened SnapshotSpec

  /** Entry i is what a reader at s sees for its user key. */
  ghost predicate VisibleAt(all: seq<Entry>, s: nat, i: nat)
    requires i < |all|
  {
    && all[i].key.sequence <= s && all[i].key.kind == Put
    && forall j :: 0 <= j < i && all[j].key.user == all[i].key.user ==> all[j].key.sequence > s
  }

  /** The visible pairs among the first n entries, in order. */
  ghost function ViewUpto(all: seq<Entry>, s: nat, n: nat): seq<(UserKey, Bytes)>
    requires n <= |all|
  {
    if n == 0 then []
    else if VisibleAt(all, s, n - 1) then ViewUpto(all, s, n - 1) + [(all[n - 1].key.user, all[n - 1].value)]
    else ViewUpto(all, s, n - 1)
  }

  ghost function View(all: seq<Entry>, s: nat): seq<(UserKey, Bytes)> {
    ViewUpto(all, s, |all|)
  }

  lemma {:induction false} ViewGrows(all: seq<Entry>, s: nat, m: nat, n: nat)
    requires m <= n <= |all|
    ensures ViewUpto(all, s, m) <= ViewUpto(all, s, n)
    decreases n - m
  {
    if m < n { ViewGrows(all, s, m, n - 1); }
  }

  lemma {:induction false} NothingShown(all: seq<Entry>, s: nat, m: nat, n: nat)
    requires m <= n <= |all|
    requires forall i :: m <= i < n ==> !VisibleAt(all, s, i)
    ensures ViewUpto(all, s, m) == ViewUpto(all, s, n)
    decreases n - m
  {
    if m < n { NothingShown(all, s, m, n - 1); }
  }

  /** A visible entry's place in the view is the number of visible entries before it. */
  lemma {:induction false} PlaceInView(all: seq<Entry>, s: nat, i: nat)
    requires i < |all| && VisibleAt(all, s, i)
    ensures |ViewUpto(all, s, i)| < |View(all, s)|
    ensures View(all, s)[|ViewUpto(all, s, i)|] == (all[i].key.user, all[i].value)
    ensures |ViewUpto(all, s, i + 1)| == |ViewUpto(all, s, i)| + 1
  {
    ViewGrows(all, s, i + 1, |all|);
  }

  lemma {:induction false} ViewSource(all: seq<Entry>, s: nat, n: nat, p: nat)
    requires n <= |all| && p < |ViewUpto(all, s, n)|
    ensures exists i :: 0 <= i < n && VisibleAt(all, s, i) && p == |ViewUpto(all, s, i)| &&
                        ViewUpto(all, s, n)[p] == (all[i].key.user, all[i].value)
  {
    if p < |ViewUpto(all, s, n - 1)| { ViewSource(all, s, n - 1, p); }
    else { assert VisibleAt(all, s, n - 1); }
  }

  /** The view lists each user key once, in ascending order. */
  lemma ViewAscends(all: seq<Entry>, s: nat, p: nat, q: nat)
    requires Sorted(all) && p < q < |View(all, s)|
    ensures View(all, s)[p].0 < View(all, s)[q].0
  {
    ViewSource(all, s, |all|, p);
    ViewSource(all, s, |all|, q);
    var i :| 0 <= i < |all| && VisibleAt(all, s, i) && p == |ViewUpto(all, s, i)| &&
             View(all, s)[p] == (all[i].key.user, all[i].value);
    var j :| 0 <= j < |all| && VisibleAt(all, s, j) && q == |ViewUpto(all, s, j)| &&
             View(all, s)[q] == (all[j].key.user, all[j].value);
    if j <= i { ViewGrows(all, s, j, i); }
    assert Less(all[i].key, all[j].key);
  }

  /** The view holds exactly the pairs a read at s answers. */
  lemma ViewIsWhatReadsShow(all: seq<Entry>, s: nat, k: UserKey, v: Bytes)
    requires Sorted(all)
    ensures (k, v) in View(all, s) <==> Shows(Entries(all), k, s, v)
  {
    var es := Entries(all);
    if (k, v) in View(all, s) {
      var p :| 0 <= p < |View(all, s)| && View(all, s)[p] == (k, v);
      ViewSource(all, s, |all|, p);
      var i :| 0 <= i < |all| && VisibleAt(all, s, i) && p == |ViewUpto(all, s, i)| &&
               View(all, s)[p] == (all[i].key.user, all[i].value);
      FirstIsNewest(all, s, i);
      assert Newest(es, k, s, all[i]);
    }
    if Shows(es, k, s, v) {
      var e :| Newest(es, k, s, e) && e.key.kind == Put && e.value == v;
      var i :| 0 <= i < |all| && all[i] == e;
      forall j | 0 <= j < i && all[j].key.user == k
        ensures all[j].key.sequence > s
      {
        assert Less(all[j].key, all[i].key);
        assert all[j] in es;
      }
      PlaceInView(all, s, i);
    }
  }

  lemma FirstIsNewest(all: seq<Entry>, s: nat, i: nat)
    requires Sorted(all) && i < |all| && VisibleAt(all, s, i)
    ensures Newest(Entries(all), all[i].key.user, s, all[i])
  {
    forall x | x in Entries(all) && x.key.user == all[i].key.user && x.key.sequence <= s
      ensures x.key.sequence <= all[i].key.sequence
    {
      var j :| 0 <= j < |all| && all[j] == x;
      if i < j { assert Less(all[i].key, all[j].key); }
    }
  }

  /** Entry i lies at or below the skip key. */
  ghost predicate Skipped(all: seq<Entry>, i: nat, skip: bool, key: Option<UserKey>)
    requires i < |all|
  {
    skip && key.Some? && all[i].key.user <= key.value
  }

  /** A visible entry lies in front of where a seek starts, in the list and in the view, exactly
      when its key is below the target. */
  lemma {:induction false} InFrontOfStart(all: seq<Entry>, s: nat, target: UserKey, start: nat, i: nat)
    requires Sorted(all) && start == LowerBound(all, SeekKey(target, s)) && i < |all| && VisibleAt(all, s, i)
    ensures |ViewUpto(all, s, i)| < |ViewUpto(all, s, start)| <==> all[i].key.user < target
  {
    PlaceInView(all, s, i);
    if i < start {
      ViewGrows(all, s, i + 1, start);
    } else {
      ViewGrows(all, s, start, i);
      assert start < i ==> Less(all[start].key, all[i].key);
    }
  }

  /** Behind a visible entry, up to its user key, nothing is visible. */
  lemma HiddenBehind(all: seq<Entry>, s: nat, here: nat, i: nat)
    requires Sorted(all) && here < i < |all| && VisibleAt(all, s, here) && all[i].key.user <= all[here].key.user
    ensures !VisibleAt(all, s, i)
  {
    assert Less(all[here].key, all[i].key);
  }

  /** The state of the forward scan that began at `start` with (skip, key0) and has reached i:
      nothing passed over was to be shown, a readable entry passed over hides the rest of its
      user key through the skip key, and the skip key hides nothing else. */
  ghost predicate ForwardScan(all: seq<Entry>, s: nat, start: nat, i: nat,
                              skip: bool, key0: Option<UserKey>, skipping: bool, key: Option<UserKey>)
  {
    && start <= i <= |all| && (skipping ==> key.Some?)
    && (skip ==> skipping && key0.Some? && key0.value <= key.value)
    && (forall j :: start <= j < i ==> !VisibleAt(all, s, j) || Skipped(all, j, skip, key0))
    && (forall h :: 0 <= h < i && all[h].key.sequence <= s
          ==> Skipped(all, h, skipping, key) || (i < |all| ==> all[h].key.user < all[i].key.user))
    && (skipping ==> forall j :: i <= j < |all| && all[j].key.sequence <= s ==> key.value <= all[j].key.user)
    && (skipping && !(skip && key == key0) ==>
          exists d :: 0 <= d < i && all[d].key.user == key.value && all[d].key.sequence <= s)
  }

  lemma ForwardScanTooNew(all: seq<Entry>, s: nat, start: nat, i: nat,
                          skip: bool, key0: Option<UserKey>, skipping: bool, key: Option<UserKey>)
    requires Sorted(all) && i < |all| && ForwardScan(all, s, start, i, skip, key0, skipping, key)
    requires all[i].key.sequence > s
    ensures ForwardScan(all, s, start, i + 1, skip, key0, skipping, key)
  {
    assert i + 1 < |all| ==> Less(all[i].key, all[i + 1].key);
  }

  lemma ForwardScanDeletion(all: seq<Entry>, s: nat, start: nat, i: nat,
                            skip: bool, key0: Option<UserKey>, skipping: bool, key: Option<UserKey>)
    requires Sorted(all) && i < |all| && ForwardScan(all, s, start, i, skip, key0, skipping, key)
    requires all[i].key.sequence <= s && all[i].key.kind == Deletion
    ensures ForwardScan(all, s, start, i + 1, skip, key0, true, Some(all[i].key.user))
  {
    assert forall j :: i < j < |all| ==> Less(all[i].key, all[j].key);
    assert forall j :: 0 <= j < i ==> Less(all[j].key, all[i].key);
  }

  lemma ForwardScanPut(all: seq<Entry>, s: nat, start: nat, i: nat,
                       skip: bool, key0: Option<UserKey>, skipping: bool, key: Option<UserKey>)
    requires Sorted(all) && i < |all| && ForwardScan(all, s, start, i, skip, key0, skipping, key)
    requires all[i].key.sequence <= s && all[i].key.kind == Put
    ensures Skipped(all, i, skipping, key) ==> ForwardScan(all, s, start, i + 1, skip, key0, skipping, key)
    ensures !Skipped(all, i, skipping, key) ==> VisibleAt(all, s, i) && !Skipped(all, i, skip, key0)
  {
    assert i + 1 < |all| ==> Less(all[i].key, all[i + 1].key);
    if Skipped(all, i, skipping, key) && !(skip && key == key0) {
      assert !VisibleAt(all, s, i);
    }
  }

  lemma ForwardScanStep(all: seq<Entry>, s: nat, start: nat, i: nat,
                        skip: bool, key0: Option<UserKey>, skipping: bool, key: Option<UserKey>)
    requires Sorted(all) && i < |all| && ForwardScan(all, s, start, i, skip, key0, skipping, key)
    ensures all[i].key.sequence > s || (all[i].key.kind == Put && Skipped(all, i, skipping, key)) ==>
              ForwardScan(all, s, start, i + 1, skip, key0, skipping, key)
    ensures all[i].key.sequence <= s && all[i].key.kind == Deletion ==>
              ForwardScan(all, s, start, i + 1, skip, key0, true, Some(all[i].key.user))
    ensures all[i].key.sequence <= s && all[i].key.kind == Put && !Skipped(all, i, skipping, key) ==>
              VisibleAt(all, s, i) && !Skipped(all, i, skip, key0)
  {
    if all[i].key.sequence > s { ForwardScanTooNew(all, s, start, i, skip, key0, skipping, key); }
    else if all[i].key.kind == Put { ForwardScanPut(all, s, start, i, skip, key0, skipping, key); }
    else { ForwardScanDeletion(all, s, start, i, skip, key0, skipping, key); }
  }

  /** The state of the backward scan from `bound` down to `left`: `found` is the one candidate
      unless a newer entry of its user key turns up, and entries between are too new. */
  ghost predicate BackwardScan(all: seq<Entry>, s: nat, bound: nat, left: nat, kind: Kind, found: nat) {
    && left <= bound <= |all|
    && (kind == Deletion ==> forall j :: left <= j < bound ==> !VisibleAt(all, s, j))
    && (kind == Put ==>
          && left <= found < bound && all[found].key.kind == Put && all[found].key.sequence <= s
          && (forall j :: found < j < bound ==> !VisibleAt(all, s, j))
          && (forall j :: left <= j < found ==> all[j].key.sequence > s))
  }

  lemma BackwardScanStep(all: seq<Entry>, s: nat, bound: nat, left: nat, kind: Kind, found: nat)
    requires Sorted(all) && left > 0 && BackwardScan(all, s, bound, left, kind, found)
    ensures all[left - 1].key.sequence > s ==> BackwardScan(all, s, bound, left - 1, kind, found)
    ensures all[left - 1].key.sequence <= s && !(kind == Put && all[left - 1].key.user < all[found].key.user) ==>
              BackwardScan(all, s, bound, left - 1, all[left - 1].key.kind, left - 1)
    ensures kind == Put && all[left - 1].key.sequence <= s && all[left - 1].key.user < all[found].key.user ==>
              VisibleAt(all, s, found)
  {
    assert forall j :: left - 1 < j < |all| ==> Less(all[left - 1].key, all[j].key);
    assert forall j :: 0 <= j < left - 1 ==> Less(all[j].key, all[left - 1].key);
  }

  class DBIter {
    const iter: MergingIterator
    const sequence: nat
    var direction: Direction
    var valid: bool
    var savedKey: Option<UserKey>   // None: cleared
    var savedValue: Bytes
    ghost var at: nat               // the entry shown, when valid
    ghost var pos: nat              // its place in the view; |view| when not valid

    ghost function TheView(): seq<(UserKey, Bytes)> {
      View(iter.all, sequence)
    }

    /** Going backwards, the internal iterator stands before every entry of the current key,
        with nothing but too-new entries between. */
    ghost predicate JustBefore(k: UserKey)
      reads iter
    {
      && (iter.Valid() ==> iter.pos < |iter.all| && iter.all[iter.pos].key.user < k)
      && (forall j :: 0 <= j < |iter.all| && (iter.Valid() ==> iter.pos < j) && iter.all[j].key.user < k
            ==> iter.all[j].key.sequence > sequence)
    }

    ghost predicate Inv()
      reads this, iter, iter.children
    {
      && iter.Inv()
      && (!valid ==> pos == |TheView()|)
      && (valid ==>
            && at < |iter.all| && VisibleAt(iter.all, sequence, at)
            && pos == |ViewUpto(iter.all, sequence, at)|
            && (direction == Forward ==> iter.pos == at)
            && (direction == Reverse ==>
                  && savedKey == Some(iter.all[at].key.user)
                  && savedValue == iter.all[at].value
                  && JustBefore(iter.all[at].key.user)))
    }

    constructor (it: MergingIterator, s: nat)
      requires it.Inv()
      ensures Inv() && !valid && iter == it && sequence == s
    {
      iter := it;
      sequence := s;
      direction := Forward;
      valid := false;
      savedKey := None;
      savedValue := [];
      at := 0;
      pos := |View(it.all, s)|;
    }

    predicate Valid()
      reads this
    {
      valid
    }

    function Key(): UserKey
      requires Inv() && Valid()
      reads this, iter, iter.children
      ensures pos < |TheView()| && Key() == TheView()[pos].0
    {
      PlaceInView(iter.all, sequence, at);
      if direction == Forward then iter.Key().user else savedKey.value
    }

    function Value(): Bytes
      requires Inv() && Valid()
      reads this, iter, iter.children
      ensures pos < |TheView()| && Value() == TheView()[pos].1
    {
      PlaceInView(iter.all, sequence, at);
      if direction == Forward then iter.Value() else savedValue
    }

    /** Scans on to the first entry that is to be shown. */
    method ScanForward(skip: bool, skipKey: Option<UserKey>) returns (found: bool)
      requires iter.Inv() && iter.Valid()
      requires ForwardScan(iter.all, sequence, iter.pos, iter.pos, skip, skipKey, skip, skipKey)
      modifies iter, iter.children
      ensures iter.Inv() && old(iter.pos) <= iter.pos && found == iter.Valid()
      ensures forall i :: old(iter.pos) <= i < iter.pos ==>
                !VisibleAt(iter.all, sequence, i) || Skipped(iter.all, i, skip, skipKey)
      ensures found ==> VisibleAt(iter.all, sequence, iter.pos) && !Skipped(iter.all, iter.pos, skip, skipKey)
    {
      var skipping, key := skip, skipKey;
      ghost var start := iter.pos;
      found := false;
      while iter.Valid()
        invariant iter.Inv() && iter.pos <= |iter.all| && !found
        invariant ForwardScan(iter.all, sequence, start, iter.pos, skip, skipKey, skipping, key)
        decreases |iter.all| - iter.pos
      {
        found, skipping, key := Consider(start, skip, skipKey, skipping, key);
        if found {
          break;
        }
        iter.Next();
      }
    }

    /** `skipKey` starts as the string the caller passed in; it is cleared before returning. */
    method FindNextUserEntry(skip: bool, skipKey: Option<UserKey>)
      requires iter.Inv() && iter.Valid() && direction == Forward
      requires ForwardScan(iter.all, sequence, iter.pos, iter.pos, skip, skipKey, skip, skipKey)
      modifies this, iter, iter.children
      ensures iter.Inv() && direction == Forward
      ensures old(iter.pos) <= iter.pos && valid == iter.Valid()
      ensures forall i :: old(iter.pos) <= i < iter.pos ==>
                !VisibleAt(iter.all, sequence, i) || Skipped(iter.all, i, skip, skipKey)
      ensures valid ==> VisibleAt(iter.all, sequence, iter.pos) && !Skipped(iter.all, iter.pos, skip, skipKey)
    {
      valid := ScanForward(skip, skipKey);
      savedKey := None;
      direction := Forward;
    }

    /** One round of the scan: stops at the entry, or notes what it hides. */
    method Consider(ghost start: nat, ghost skip: bool, ghost skipKey: Option<UserKey>, skipping: bool,
                    key: Option<UserKey>)
      returns (found: bool, skipping': bool, key': Option<UserKey>)
      requires iter.Inv() && iter.Valid() && ForwardScan(iter.all, sequence, start, iter.pos, skip, skipKey, skipping, key)
      ensures found ==> VisibleAt(iter.all, sequence, iter.pos) && !Skipped(iter.all, iter.pos, skip, skipKey)
      ensures found ==> ForwardScan(iter.all, sequence, start, iter.pos, skip, skipKey, skipping', key')
      ensures !found ==> ForwardScan(iter.all, sequence, start, iter.pos + 1, skip, skipKey, skipping', key')
    {
      ForwardScanStep(iter.all, sequence, start, iter.pos, skip, skipKey, skipping, key);
      found, skipping', key' := false, skipping, key;
      var ikey := iter.Key();
      if ikey.sequence <= sequence {
        match ikey.kind
        case Deletion =>
          skipping', key' := true, Some(ikey.user);
        case Put =>
          found := !(skipping && ikey.user <= key.value);
      }
    }

    /** What has been saved is the entry found, or nothing. */
    ghost predicate Saved(kind: Kind, key: Option<UserKey>, value: Bytes, found: nat)
      reads iter
    {
      kind == Put ==> found < |iter.all| && key == Some(iter.all[found].key.user) && value == iter.all[found].value
    }

    /** One round of the backward scan: stops at an entry of an earlier key, or saves this one. */
    method ConsiderBack(ghost bound: nat, kind: Kind, key: Option<UserKey>, value: Bytes, ghost found: nat)
      returns (stop: bool, kind': Kind, key': Option<UserKey>, value': Bytes, ghost found': nat)
      requires iter.Inv() && iter.Valid() && BackwardScan(iter.all, sequence, bound, iter.pos + 1, kind, found)
      requires Saved(kind, key, value, found)
      ensures Saved(kind', key', value', found')
      ensures stop ==> BackwardScan(iter.all, sequence, bound, iter.pos + 1, kind', found') && kind' == Put
      ensures stop ==> VisibleAt(iter.all, sequence, found') && iter.all[iter.pos].key.user < iter.all[found'].key.user
      ensures !stop ==> BackwardScan(iter.all, sequence, bound, iter.pos, kind', found')
    {
      BackwardScanStep(iter.all, sequence, bound, iter.pos + 1, kind, found);
      stop, kind', key', value', found' := false, kind, key, value, found;
      var ikey := iter.Key();
      if ikey.sequence <= sequence {
        stop := kind != Deletion && ikey.user < key.value;
        if !stop {
          kind' := ikey.kind;
          if kind' == Deletion {
            key', value' := None, [];
          } else {
            key', value' := Some(ikey.user), iter.Value();
            found' := iter.pos;
          }
        }
      }
    }

    /** Scans backwards for the nearest visible entry among the first `bound` ones. */
    method ScanBack(ghost bound: nat) returns (kind: Kind, key: Option<UserKey>, value: Bytes, ghost found: nat)
      requires iter.Inv() && bound == if iter.Valid() then iter.pos + 1 else 0
      modifies iter, iter.children
      ensures iter.Inv() && bound <= |iter.all| && Saved(kind, key, value, found)
      ensures ghost var left := if iter.Valid() then iter.pos + 1 else 0;
              BackwardScan(iter.all, sequence, bound, left, kind, found) && (left > 0 ==>
                kind == Put && VisibleAt(iter.all, sequence, found) && iter.all[left - 1].key.user < iter.all[found].key.user)
    {
      kind, key, value, found := Deletion, None, [], 0;
      ghost var left := bound;
      while iter.Valid()
        invariant iter.Inv() && left <= bound <= |iter.all|
        invariant left == if iter.Valid() then iter.pos + 1 else 0
        invariant BackwardScan(iter.all, sequence, bound, left, kind, found)
        invariant Saved(kind, key, value, found)
        decreases left
      {
        var stop;
        stop, kind, key, value, found := ConsiderBack(bound, kind, key, value, found);
        if stop {
          break;
        }
        left := left - 1;
        iter.Prev();
      }
    }

    /** Where the backward scan ends it has found the last visible entry, or there is none. */
    lemma BackwardScanEnds(bound: nat, kind: Kind, found: nat)
      requires Sorted(iter.all) && (iter.Valid() ==> iter.pos < |iter.all|) && bound <= |iter.all|
      requires ghost var left := if iter.Valid() then iter.pos + 1 else 0;
               BackwardScan(iter.all, sequence, bound, left, kind, found) && (left > 0 ==>
                 kind == Put && VisibleAt(iter.all, sequence, found) && iter.all[left - 1].key.user < iter.all[found].key.user)
      ensures kind == Put ==>
                && found < bound && VisibleAt(iter.all, sequence, found) && JustBefore(iter.all[found].key.user)
                && forall i :: found < i < bound ==> !VisibleAt(iter.all, sequence, i)
      ensures kind == Deletion ==> forall i :: 0 <= i < bound ==> !VisibleAt(iter.all, sequence, i)
    {
      if kind == Put {
        assert forall j :: found < j < |iter.all| ==> Less(iter.all[found].key, iter.all[j].key);
      }
    }

    /** To the nearest visible entry among the first `bound` ones. */
    method FindPrevUserEntry(ghost bound: nat) returns (ghost found: nat)
      requires iter.Inv() && direction == Reverse
      requires bound == if iter.Valid() then iter.pos + 1 else 0
      modifies this, iter, iter.children
      ensures iter.Inv() && bound <= |iter.all|
      ensures valid ==>
                && direction == Reverse && found < bound && VisibleAt(iter.all, sequence, found)
                && (forall i :: found < i < bound ==> !VisibleAt(iter.all, sequence, i))
                && savedKey == Some(iter.all[found].key.user) && savedValue == iter.all[found].value
                && JustBefore(iter.all[found].key.user)
      ensures !valid ==> forall i :: 0 <= i < bound ==> !VisibleAt(iter.all, sequence, i)
    {
      var kind;
      kind, savedKey, savedValue, found := ScanBack(bound);
      BackwardScanEnds(bound, kind, found);
      valid := kind != Deletion;
      direction := if valid then Reverse else Forward;
    }

    /** Places the cursor on the first visible entry from `start` on. */
    ghost method Land(start: nat)
      requires iter.Inv() && direction == Forward && start <= iter.pos
      requires valid == iter.Valid()
      requires valid ==> VisibleAt(iter.all, sequence, iter.pos)
      requires forall i :: start <= i < iter.pos ==> !VisibleAt(iter.all, sequence, i)
      modifies this`at, this`pos
      ensures Inv() && pos == |ViewUpto(iter.all, sequence, start)|
    {
      at := iter.pos;
      pos := |ViewUpto(iter.all, sequence, iter.pos)|;
      NothingShown(iter.all, sequence, start, iter.pos);
    }

    /** Places the cursor on the last visible entry among the first `bound` ones. */
    ghost method LandBack(bound: nat, found: nat)
      requires iter.Inv() && bound <= |iter.all|
      requires valid ==>
                 && direction == Reverse && found < bound && VisibleAt(iter.all, sequence, found)
                 && savedKey == Some(iter.all[found].key.user) && savedValue == iter.all[found].value
                 && JustBefore(iter.all[found].key.user)
      requires forall i :: (valid ==> found < i) && 0 <= i < bound ==> !VisibleAt(iter.all, sequence, i)
      modifies this`at, this`pos
      ensures Inv()
      ensures pos == var n := |ViewUpto(iter.all, sequence, bound)|; if n == 0 then |TheView()| else n - 1
    {
      at := found;
      if valid {
        pos := |ViewUpto(iter.all, sequence, found)|;
        PlaceInView(iter.all, sequence, found);
        NothingShown(iter.all, sequence, found + 1, bound);
      } else {
        NothingShown(iter.all, sequence, 0, bound);
        pos := |TheView()|;
      }
    }

    /** From just before the entries of the current key to one at or before the one shown. */
    method TurnForward()
      requires Inv() && Valid() && direction == Reverse
      modifies this`direction, iter, iter.children
      ensures iter.Inv() && iter.Valid() && direction == Forward && iter.pos <= at
      ensures ForwardScan(iter.all, sequence, iter.pos, iter.pos, true, savedKey, true, savedKey)
    {
      direction := Forward;
      if !iter.Valid() {
        iter.SeekToFirst();
      } else {
        iter.Next();
      }
      if !iter.Valid() {
        assert false;   // the entries of the current key lie ahead
      }
    }

    /** Ready to scan on from the current key, which is to be skipped. */
    method FaceForward()
      requires Inv() && Valid()
      modifies this`direction, this`savedKey, iter, iter.children
      ensures iter.Inv() && iter.Valid() && direction == Forward && iter.pos <= at
      ensures savedKey == Some(iter.all[at].key.user)
      ensures ForwardScan(iter.all, sequence, iter.pos, iter.pos, true, savedKey, true, savedKey)
    {
      if direction == Reverse {
        TurnForward();
      } else {
        savedKey := Some(iter.Key().user);
      }
    }

    method Next()
      requires Inv() && Valid()
      modifies this, iter, iter.children
      ensures Inv() && pos == old(pos) + 1
    {
      ghost var all, here := iter.all, at;
      PlaceInView(all, sequence, here);
      FaceForward();
      FindNextUserEntry(true, savedKey);
      forall i | here + 1 <= i < iter.pos
        ensures !VisibleAt(all, sequence, i)
      {
        if all[i].key.user <= all[here].key.user { HiddenBehind(all, sequence, here, i); }
      }
      Land(here + 1);
    }

    /** Goes back over the entries of the current key; the scan is over when nothing is before them. */
    method StepBehind() returns (more: bool)
      requires Inv() && Valid() && direction == Forward
      modifies this`savedKey, this`savedValue, this`valid, iter, iter.children
      ensures iter.Inv() && (!more ==> !valid) && (more ==> valid && iter.Valid() && iter.pos < at)
      ensures forall i :: (more ==> iter.pos < i) && 0 <= i < at ==> !VisibleAt(iter.all, sequence, i)
    {
      ghost var all, here := iter.all, at;
      savedKey := Some(iter.Key().user);
      while true
        invariant iter.Inv() && iter.Valid() && iter.pos <= here && valid
        invariant savedKey == Some(all[here].key.user)
        invariant all[iter.pos].key.user == all[here].key.user
        decreases iter.pos
      {
        iter.Prev();
        if !iter.Valid() {
          valid := false;
          savedKey := None;
          savedValue := [];
          return false;
        }
        if iter.Key().user < savedKey.value {
          return true;
        }
      }
    }

    method Prev()
      requires Inv() && Valid()
      modifies this, iter, iter.children
      ensures Inv() && pos == if old(pos) == 0 then |TheView()| else old(pos) - 1
    {
      ghost var all, here := iter.all, at;
      if direction == Forward {
        var more := StepBehind();
        if !more {
          NothingShown(all, sequence, 0, here);
          pos := |TheView()|;
          return;
        }
        direction := Reverse;
      }
      ghost var bound := if iter.Valid() then iter.pos + 1 else 0;
      NothingShown(all, sequence, bound, here);
      ghost var found := FindPrevUserEntry(bound);
      LandBack(bound, found);
    }

    /** The first pair of the view whose key is at or after `target`. */
    ghost predicate FirstFrom(target: UserKey, p: nat) {
      p <= |TheView()| &&
      (forall q :: 0 <= q < p ==> TheView()[q].0 < target) &&
      (forall q :: p <= q < |TheView()| ==> target <= TheView()[q].0)
    }

    /** Shows the first visible entry from where the merged cursor stands, if there is one. */
    method ShowFromHere()
      requires iter.Inv() && direction == Forward
      requires iter.Valid() ==> ForwardScan(iter.all, sequence, iter.pos, iter.pos, false, None, false, None)
      modifies this, iter, iter.children
      ensures Inv() && pos == |ViewUpto(iter.all, sequence, old(iter.pos))|
    {
      ghost var start := iter.pos;
      if iter.Valid() {
        FindNextUserEntry(false, None);
      } else {
        valid := false;
      }
      Land(start);
    }

    method Seek(target: UserKey)
      requires Inv()
      modifies this, iter, iter.children
      ensures Inv() && FirstFrom(target, pos)
    {
      direction := Forward;
      savedValue := [];
      savedKey := None;
      iter.Seek(SeekKey(target, sequence));
      ghost var start := iter.pos;
      ShowFromHere();
      SeekIsFirstFrom(target, start);
    }

    lemma {:induction false} SeekIsFirstFrom(target: UserKey, start: nat)
      requires Sorted(iter.all) && start == LowerBound(iter.all, SeekKey(target, sequence))
      ensures FirstFrom(target, |ViewUpto(iter.all, sequence, start)|)
    {
      var all := iter.all;
      ViewGrows(all, sequence, start, |all|);
      var p := |ViewUpto(all, sequence, start)|;
      forall q | 0 <= q < |TheView()|
        ensures q < p <==> TheView()[q].0 < target
      {
        ViewSource(all, sequence, |all|, q);
        var i :| 0 <= i < |all| && VisibleAt(all, sequence, i) && q == |ViewUpto(all, sequence, i)| &&
                 TheView()[q] == (all[i].key.user, all[i].value);
        InFrontOfStart(all, sequence, target, start, i);
      }
    }

    method SeekToFirst()
      requires Inv()
      modifies this, iter, iter.children
      ensures Inv() && pos == 0
    {
      direction := Forward;
      savedValue := [];
      iter.SeekToFirst();
      ShowFromHere();
    }

    method SeekToLast()
      requires Inv()
      modifies this, iter, iter.children
      ensures Inv() && pos == if TheView() == [] then 0 else |TheView()| - 1
    {
      direction := Reverse;
      savedValue := [];
      iter.SeekToLast();
      ghost var all := iter.all;
      ghost var found := FindPrevUserEntry(|all|);
      LandBack(|all|, found);
    }
  }
}
