/** The LRU cache: entries held by the cache and by its clients, and freed when nobody holds them. */
module LruCaches {
  import opened Format
  import opened Coding
  import opened HandleTables

  datatype CacheEntry = CacheEntry(tag: Tag, value: int, charge: nat, refs: nat)

  /** The cache as a value.  `entries` are those not freed yet, `lru` those the cache holds itself,
      oldest first.  `handles` and `freed` are history variables: the handles clients have not
      released, and the entries given to the deleter, in order. */
  datatype Cache = Cache(entries: map<Id, CacheEntry>, lru: seq<Id>, usage: nat, handles: multiset<Id>,
                         freed: seq<Id>, nextId: Id)

  /** The charges of the entries below n that have not been freed. */
  function Total(entries: map<Id, CacheEntry>, n: nat): nat {
    if n == 0 then 0 else Total(entries, n - 1) + if n - 1 in entries then entries[n - 1].charge else 0
  }

  ghost predicate NoDuplicates(ids: seq<Id>) {
    forall i, j :: 0 <= i < j < |ids| ==> ids[i] != ids[j]
  }

  /** The cache holds no entry twice and no two entries with one tag. */
  ghost predicate ListOk(c: Cache) {
    Tagged(c.entries, c.lru)
  }

  /** The list names entries, none twice and none with the tag of another. */
  ghost predicate Tagged(entries: map<Id, CacheEntry>, ids: seq<Id>) {
    && NoDuplicates(ids) && (forall id :: id in ids ==> id in entries)
    && (forall i, j :: 0 <= i < j < |ids| ==> entries[ids[i]].tag != entries[ids[j]].tag)
  }

  lemma TaggedSnoc(entries: map<Id, CacheEntry>, ids: seq<Id>, id: Id)
    requires Tagged(entries, ids) && id in entries && id !in ids
    requires forall x :: x in ids ==> entries[x].tag != entries[id].tag
    ensures Tagged(entries, ids + [id])
  {
    assert forall i :: 0 <= i < |ids| ==> ids[i] in ids;
  }

  lemma TaggedSame(a: map<Id, CacheEntry>, b: map<Id, CacheEntry>, ids: seq<Id>)
    requires Tagged(a, ids) && forall id :: id in ids ==> id in b && b[id].tag == a[id].tag
    ensures Tagged(b, ids)
  {
    assert forall i :: 0 <= i < |ids| ==> ids[i] in ids;
  }

  /** References are the handles out, and one when the cache holds the entry itself. */
  ghost predicate RefsOk(c: Cache) {
    && (forall id :: id in c.handles ==> id in c.entries)
    && (forall id :: id in c.entries ==> 0 < c.entries[id].refs == c.handles[id] + if id in c.lru then 1 else 0)
  }

  /** Every entry ever made is either not freed yet or was freed once. */
  ghost predicate FreedOnce(c: Cache) {
    && NoDuplicates(c.freed) && (forall id :: id in c.freed ==> id !in c.entries)
    && (forall id: Id :: id < c.nextId <==> id in c.entries || id in c.freed)
  }

  /** What every operation keeps. */
  ghost predicate Inv(c: Cache) {
    ListOk(c) && RefsOk(c) && FreedOnce(c) && c.usage == Total(c.entries, c.nextId)
  }

  /** Drops one reference; the last one frees the entry. */
  function Unref(c: Cache, id: Id): Cache
    requires id in c.entries && c.entries[id].refs > 0 && c.usage >= c.entries[id].charge
  {
    var e := c.entries[id];
    if e.refs == 1 then c.(entries := c.entries - {id}, usage := c.usage - e.charge, freed := c.freed + [id])
    else c.(entries := c.entries[id := e.(refs := e.refs - 1)])
  }

  function Without(ids: seq<Id>, id: Id): seq<Id> {
    if ids == [] then [] else if ids[0] == id then ids[1..] else [ids[0]] + Without(ids[1..], id)
  }

  lemma {:induction false} WithoutIs(ids: seq<Id>, id: Id)
    requires NoDuplicates(ids)
    ensures NoDuplicates(Without(ids, id))
    ensures forall x :: x in Without(ids, id) <==> x in ids && x != id
  {
    if ids != [] {
      assert forall x :: x in ids <==> x == ids[0] || x in ids[1..];
      if ids[0] == id {
        assert id !in ids[1..];
      } else {
        WithoutIs(ids[1..], id);
        assert ids[0] !in ids[1..];
      }
    }
  }

  lemma {:induction false} TotalAgrees(a: map<Id, CacheEntry>, b: map<Id, CacheEntry>, n: nat)
    requires forall id :: 0 <= id < n ==> (id in a <==> id in b) && (id in a ==> a[id].charge == b[id].charge)
    ensures Total(a, n) == Total(b, n)
  {
    if n > 0 { TotalAgrees(a, b, n - 1); }
  }

  lemma {:induction false} TotalDrops(entries: map<Id, CacheEntry>, id: Id, n: nat)
    requires id in entries && id < n
    ensures Total(entries, n) == Total(entries - {id}, n) + entries[id].charge
  {
    if id == n - 1 {
      TotalAgrees(entries, entries - {id}, n - 1);
    } else {
      TotalDrops(entries, id, n - 1);
    }
  }

  /** An entry's charge is part of the usage. */
  lemma ChargeIncluded(c: Cache, id: Id)
    requires Inv(c) && id in c.entries
    ensures id < c.nextId && c.usage >= c.entries[id].charge
  {
    TotalDrops(c.entries, id, c.nextId);
  }

  /** The cache lets go of an entry. */
  function DropCached(c: Cache, id: Id): Cache
    requires Inv(c) && id in c.lru
  {
    ChargeIncluded(c, id);
    Unref(c.(lru := Without(c.lru, id)), id)
  }

  /** A client lets go of a handle. */
  function DropHandle(c: Cache, id: Id): Cache
    requires Inv(c) && id in c.handles
  {
    ChargeIncluded(c, id);
    Unref(c.(handles := c.handles - multiset{id}), id)
  }

  /** An entry that was found becomes the newest, with one more handle out. */
  function Touch(c: Cache, id: Id): Cache
    requires id in c.entries
  {
    var e := c.entries[id];
    c.(entries := c.entries[id := e.(refs := e.refs + 1)], lru := Without(c.lru, id) + [id], handles := c.handles + multiset{id})
  }

  /** A new entry, held by the cache and by the client. */
  function AddEntry(c: Cache, tag: Tag, value: int, charge: nat): Cache {
    c.(entries := c.entries[c.nextId := CacheEntry(tag, value, charge, 2)], lru := c.lru + [c.nextId],
       usage := c.usage + charge, handles := c.handles + multiset{c.nextId}, nextId := c.nextId + 1)
  }

  /** The entry that the cache holds under a tag. */
  ghost predicate CachedAs(c: Cache, tag: Tag, r: Option<Id>) {
    match r
    case Some(id) => id in c.lru && id in c.entries && c.entries[id].tag == tag
    case None => forall id :: id in c.lru ==> id in c.entries && c.entries[id].tag != tag
  }

  lemma {:induction false} WithoutAt(ids: seq<Id>, i: nat)
    requires NoDuplicates(ids) && i < |ids|
    ensures Without(ids, ids[i]) == ids[..i] + ids[i + 1..]
  {
    if i > 0 {
      WithoutAt(ids[1..], i - 1);
      assert ids[1..][i - 1] == ids[i] && ids[0] != ids[i];
      assert ids[..i] + ids[i + 1..] == [ids[0]] + (ids[1..][..i - 1] + ids[1..][i..]);
    }
  }

  /** What stays in the list keeps its place. */
  lemma {:induction false} WithoutPlaces(ids: seq<Id>, id: Id, a: nat, b: nat)
    requires NoDuplicates(ids) && id in ids && a < b < |Without(ids, id)|
    ensures exists x, y :: 0 <= x < y < |ids| && ids[x] == Without(ids, id)[a] && ids[y] == Without(ids, id)[b]
  {
    var i :| 0 <= i < |ids| && ids[i] == id;
    WithoutAt(ids, i);
    var x, y := if a < i then a else a + 1, if b < i then b else b + 1;
    assert ids[x] == Without(ids, id)[a] && ids[y] == Without(ids, id)[b];
  }

  lemma {:induction false} TagsStay(c: Cache, id: Id, entries: map<Id, CacheEntry>)
    requires Inv(c) && id in c.lru
    requires forall x :: x in c.entries && x != id ==> x in entries && entries[x].tag == c.entries[x].tag
    ensures Tagged(entries, Without(c.lru, id))
  {
    var lru := Without(c.lru, id);
    WithoutIs(c.lru, id);
    forall i, j | 0 <= i < j < |lru|
      ensures lru[i] in entries && lru[j] in entries && entries[lru[i]].tag != entries[lru[j]].tag
    {
      WithoutPlaces(c.lru, id, i, j);
      assert lru[i] in lru && lru[j] in lru;
    }
  }

  lemma UnrefTotal(c: Cache, id: Id, r: Cache)
    requires id in c.entries && c.entries[id].refs > 0 && c.usage == Total(c.entries, c.nextId) && id < c.nextId
    requires c.usage >= c.entries[id].charge && r == Unref(c, id)
    ensures r.usage == Total(r.entries, r.nextId)
  {
    if c.entries[id].refs == 1 {
      TotalDrops(c.entries, id, c.nextId);
    } else {
      TotalAgrees(c.entries, r.entries, c.nextId);
    }
  }

  lemma UnrefFreesOnce(c: Cache, id: Id)
    requires FreedOnce(c) && id in c.entries && c.entries[id].refs > 0 && c.usage >= c.entries[id].charge
    ensures FreedOnce(Unref(c, id))
  {
  }

  lemma DropCachedRefs(c: Cache, id: Id, lru: seq<Id>)
    requires RefsOk(c) && id in c.lru && id in c.entries && c.usage >= c.entries[id].charge
    requires forall x :: x in lru <==> x in c.lru && x != id
    ensures RefsOk(Unref(c.(lru := lru), id))
  {
  }

  lemma DropCachedKeeps(c: Cache, id: Id)
    requires Inv(c) && id in c.lru
    ensures Inv(DropCached(c, id))
  {
    ChargeIncluded(c, id);
    var r := DropCached(c, id);
    WithoutIs(c.lru, id);
    TagsStay(c, id, r.entries);
    DropCachedRefs(c, id, r.lru);
    UnrefFreesOnce(c.(lru := r.lru), id);
    UnrefTotal(c.(lru := r.lru), id, r);
  }

  lemma DropHandleRefs(c: Cache, id: Id)
    requires RefsOk(c) && id in c.handles && c.usage >= c.entries[id].charge
    ensures RefsOk(Unref(c.(handles := c.handles - multiset{id}), id))
  {
  }

  lemma DropHandleKeeps(c: Cache, id: Id)
    requires Inv(c) && id in c.handles
    ensures Inv(DropHandle(c, id))
  {
    ChargeIncluded(c, id);
    var r := DropHandle(c, id);
    DropHandleRefs(c, id);
    UnrefFreesOnce(c.(handles := r.handles), id);
    UnrefTotal(c.(handles := r.handles), id, r);
  }

  lemma OnlyOneTag(c: Cache, id: Id, tag: Tag)
    requires Inv(c) && id in c.lru && c.entries[id].tag == tag
    ensures forall x :: x in c.lru && x != id ==> c.entries[x].tag != tag
  {
    forall x | x in c.lru && x != id
      ensures c.entries[x].tag != tag
    {
      var i :| 0 <= i < |c.lru| && c.lru[i] == id;
      var j :| 0 <= j < |c.lru| && c.lru[j] == x;
    }
  }

  lemma TouchRefs(c: Cache, id: Id)
    requires RefsOk(c) && id in c.lru && id in c.entries
    requires forall x :: x in Touch(c, id).lru <==> x in c.lru
    ensures RefsOk(Touch(c, id))
  {
  }

  lemma {:induction false} TouchList(c: Cache, id: Id)
    requires Inv(c) && id in c.lru
    ensures ListOk(Touch(c, id)) && forall x :: x in Touch(c, id).lru <==> x in c.lru
  {
    var r, lru := Touch(c, id), Without(c.lru, id);
    WithoutIs(c.lru, id);
    TagsStay(c, id, c.entries);
    OnlyOneTag(c, id, c.entries[id].tag);
    TaggedSame(c.entries, r.entries, lru);
    TaggedSnoc(r.entries, lru, id);
  }

  lemma {:induction false} TouchKeeps(c: Cache, id: Id)
    requires Inv(c) && id in c.lru
    ensures Inv(Touch(c, id))
  {
    TouchList(c, id);
    TouchRefs(c, id);
    TotalAgrees(c.entries, Touch(c, id).entries, c.nextId);
  }

  lemma AddEntryRefs(c: Cache, tag: Tag, value: int, charge: nat)
    requires RefsOk(c) && c.nextId !in c.entries && c.nextId !in c.lru
    ensures RefsOk(AddEntry(c, tag, value, charge))
  {
    assert c.nextId !in c.handles;
  }

  lemma AddEntryList(c: Cache, tag: Tag, value: int, charge: nat)
    requires ListOk(c) && CachedAs(c, tag, None) && c.nextId !in c.entries
    ensures ListOk(AddEntry(c, tag, value, charge))
  {
    assert forall i :: 0 <= i < |c.lru| ==> c.lru[i] in c.lru;
  }

  lemma AddEntryKeeps(c: Cache, tag: Tag, value: int, charge: nat)
    requires Inv(c) && CachedAs(c, tag, None)
    ensures Inv(AddEntry(c, tag, value, charge))
  {
    assert c.nextId !in c.entries;
    AddEntryRefs(c, tag, value, charge);
    AddEntryList(c, tag, value, charge);
    TotalAgrees(c.entries, AddEntry(c, tag, value, charge).entries, c.nextId);
  }

  /** Lets go of the oldest entries until the rest fits or nothing is left. */
  function Evict(c: Cache, capacity: nat): Cache
    requires Inv(c)
    decreases |c.lru|
  {
    if c.usage > capacity && c.lru != [] then
      WithoutAt(c.lru, 0);
      DropCachedKeeps(c, c.lru[0]);
      Evict(DropCached(c, c.lru[0]), capacity)
    else c
  }

  lemma {:induction false} EvictKeeps(c: Cache, capacity: nat)
    requires Inv(c)
    ensures Inv(Evict(c, capacity))
    decreases |c.lru|
  {
    if c.usage > capacity && c.lru != [] {
      WithoutAt(c.lru, 0);
      DropCachedKeeps(c, c.lru[0]);
      EvictKeeps(DropCached(c, c.lru[0]), capacity);
    }
  }

  /** The cache lets go of its k oldest entries. */
  function DropOldest(c: Cache, k: nat): (r: Cache)
    requires Inv(c) && k <= |c.lru|
    decreases k
  {
    if k == 0 then c
    else
      WithoutAt(c.lru, 0);
      DropCachedKeeps(c, c.lru[0]);
      DropOldest(DropCached(c, c.lru[0]), k - 1)
  }

  lemma {:induction false} DropOldestKeeps(c: Cache, k: nat)
    requires Inv(c) && k <= |c.lru|
    ensures Shortened(c, DropOldest(c, k), k)
    decreases k
  {
    if k == 0 {
      OneMore(c.freed, c.lru, 0);
    } else {
      var rest := DropCached(c, c.lru[0]);
      OldestDropped(c);
      DropOldestKeeps(rest, k - 1);
      ShortenedOn(c, rest, DropOldest(c, k), k);
    }
  }

  /** r is c without the k oldest of its list. */
  ghost predicate Shortened(c: Cache, r: Cache, k: nat) {
    Inv(r) && k <= |c.lru| && r.lru == c.lru[k..] && r.handles == c.handles && r.nextId == c.nextId && c.freed <= r.freed
  }

  lemma ShortenedOn(c: Cache, rest: Cache, r: Cache, k: nat)
    requires 0 < k <= |c.lru| && Shortened(c, rest, 1) && Shortened(rest, r, k - 1)
    ensures Shortened(c, r, k)
  {
    OneMore([], c.lru, k);
  }

  /** The first k of a list, one at a time. */
  lemma OneMore(before: seq<Id>, ids: seq<Id>, k: nat)
    requires k <= |ids|
    ensures k == 0 ==> before + ids[..0] == before && ids[0..] == ids
    ensures k > 0 ==> before + [ids[0]] + ids[1..][..k - 1] == before + ids[..k] && ids[1..][k - 1..] == ids[k..]
  {
  }

  lemma OldestDropped(c: Cache)
    requires Inv(c) && c.lru != []
    ensures Shortened(c, DropCached(c, c.lru[0]), 1)
  {
    WithoutAt(c.lru, 0);
    DropCachedKeeps(c, c.lru[0]);
  }

  /** Letting go of fewer than k entries leaves more than the capacity. */
  ghost predicate StillOver(c: Cache, capacity: nat, k: nat)
    requires Inv(c)
  {
    k <= |c.lru| && forall j :: 0 <= j < k ==> DropOldest(c, j).usage > capacity
  }

  lemma {:induction false} OverBefore(c: Cache, capacity: nat, k: nat)
    requires Inv(c) && c.usage > capacity && c.lru != [] && Inv(DropCached(c, c.lru[0]))
    requires k < |c.lru| && StillOver(DropCached(c, c.lru[0]), capacity, k)
    ensures StillOver(c, capacity, k + 1)
  {
    forall j | 0 <= j < k + 1
      ensures DropOldest(c, j).usage > capacity
    {
      if j > 0 { assert DropOldest(DropCached(c, c.lru[0]), j - 1).usage > capacity; }
    }
  }

  /** Eviction lets go of the oldest entries, as many as needed and not one more, and takes no
      handle away; what it leaves fits, or the cache itself holds nothing any more. */
  lemma {:induction false} EvictsOldest(c: Cache, capacity: nat) returns (k: nat)
    requires Inv(c)
    ensures k <= |c.lru| && Evict(c, capacity) == DropOldest(c, k) && Evict(c, capacity).handles == c.handles
    ensures Evict(c, capacity).usage <= capacity || k == |c.lru|
    ensures StillOver(c, capacity, k)
    decreases |c.lru|
  {
    k := 0;
    if c.usage > capacity && c.lru != [] {
      OldestDropped(c);
      var n := EvictsOldest(DropCached(c, c.lru[0]), capacity);
      OverBefore(c, capacity, n);
      k := n + 1;
    }
  }

  /** `Insert`: the new entry takes the place of the one with its tag, and the cache shrinks. */
  function InsertInto(c: Cache, tag: Tag, value: int, charge: nat, prior: Option<Id>, capacity: nat): Cache
    requires Inv(c) && CachedAs(c, tag, prior)
  {
    ReplacedKeeps(c, tag, value, charge, prior);
    Evict(AddEntry(Replacing(c, prior), tag, value, charge), capacity)
  }

  function Replacing(c: Cache, prior: Option<Id>): Cache
    requires Inv(c) && (prior.Some? ==> prior.value in c.lru)
  {
    if prior.Some? then DropCached(c, prior.value) else c
  }

  lemma ReplacedKeeps(c: Cache, tag: Tag, value: int, charge: nat, prior: Option<Id>)
    requires Inv(c) && CachedAs(c, tag, prior)
    ensures Inv(AddEntry(Replacing(c, prior), tag, value, charge))
  {
    if prior.Some? {
      DropCachedKeeps(c, prior.value);
      WithoutIs(c.lru, prior.value);
      OnlyOneTag(c, prior.value, tag);
    }
    AddEntryKeeps(Replacing(c, prior), tag, value, charge);
  }

  /** Inserting an entry, in place of the one cached for its tag, and evicting until usage fits. */
  lemma InsertKeeps(c: Cache, tag: Tag, value: int, charge: nat, prior: Option<Id>, capacity: nat)
    requires Inv(c) && CachedAs(c, tag, prior)
    ensures Inv(InsertInto(c, tag, value, charge, prior, capacity))
  {
    ReplacedKeeps(c, tag, value, charge, prior);
    EvictKeeps(AddEntry(Replacing(c, prior), tag, value, charge), capacity);
  }

  lemma {:induction false} FreesOldest(c: Cache)
    requires Inv(c) && c.handles == multiset{} && c.lru != []
    ensures var d := DropCached(c, c.lru[0]);
            Inv(d) && d.lru == c.lru[1..] && d.handles == multiset{} && d.freed == c.freed + [c.lru[0]]
  {
    var id := c.lru[0];
    OldestDropped(c);
    assert id in c.lru && id in c.entries && c.entries[id].refs == 1;
  }

  /** When no handle is out, letting go of the oldest k entries frees them, in their order. */
  lemma {:induction false} FreedInOrder(c: Cache, k: nat)
    requires Inv(c) && c.handles == multiset{} && k <= |c.lru|
    ensures DropOldest(c, k).freed == c.freed + c.lru[..k]
    decreases k
  {
    if k > 0 {
      FreesOldest(c);
      var rest := DropCached(c, c.lru[0]);
      FreedInOrder(rest, k - 1);
    }
    OneMore(c.freed, c.lru, k);
  }

  lemma NothingHeld(c: Cache)
    requires RefsOk(c) && c.handles == multiset{} && c.lru == []
    ensures c.entries == map[]
  {
    assert forall id :: id !in c.entries;
  }

  /** And letting go of everything frees every entry there is. */
  lemma {:induction false} DrainFreesAll(c: Cache)
    requires Inv(c) && c.handles == multiset{}
    ensures var d := DropOldest(c, |c.lru|);
            && d.entries == map[] && d.usage == 0 && d.freed == c.freed + c.lru
            && forall id: Id :: id < c.nextId ==> id in d.freed
  {
    var d := DropOldest(c, |c.lru|);
    DropOldestKeeps(c, |c.lru|);
    FreedInOrder(c, |c.lru|);
    NothingHeld(d);
    NothingTotal(c.nextId);
  }

  lemma {:induction false} NothingTotal(n: nat)
    ensures Total(map[], n) == 0
  {
    if n > 0 { NothingTotal(n - 1); }
  }
}
