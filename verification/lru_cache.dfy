/** The LRU cache as the program keeps it: a ring of links, reference counts, and a hash table. */
module LruCacheImpl {
  import opened Format
  import opened Coding
  import opened HandleTables
  import opened LruCaches

  /** A link of the ring: the dummy head or an entry. */
  datatype Link = Dummy | Of(id: Id)

  type Links = map<Link, Link>

  /** Link i of the ring, which starts and ends at the dummy head. */
  function At(lru: seq<Id>, i: nat): Link
    requires i <= |lru| + 1
  {
    if i == 0 || i == |lru| + 1 then Dummy else Of(lru[i - 1])
  }

  predicate Joined(next: Links, prev: Links, x: Link, y: Link) {
    x in next && next[x] == y && y in prev && prev[y] == x
  }

  /** Each link leads to the next one and back. */
  ghost predicate Ring(next: Links, prev: Links, lru: seq<Id>) {
    forall i, j :: 0 <= i < j <= |lru| + 1 && j == i + 1 ==> Joined(next, prev, At(lru, i), At(lru, j))
  }

  lemma RingAt(next: Links, prev: Links, lru: seq<Id>, i: nat)
    requires Ring(next, prev, lru) && i <= |lru|
    ensures Joined(next, prev, At(lru, i), At(lru, i + 1))
  {
  }

  lemma LinksDiffer(lru: seq<Id>, a: nat, b: nat)
    requires NoDuplicates(lru) && a < b <= |lru| + 1 && !(a == 0 && b == |lru| + 1)
    ensures At(lru, a) != At(lru, b)
  {
  }

  /** Rerouting p to n around the link between them leaves the other joints alone. */
  lemma StillJoined(next: Links, prev: Links, x: Link, y: Link, p: Link, n: Link)
    requires Joined(next, prev, x, y) && x != p && y != n
    ensures Joined(next[p := n], prev[n := p], x, y)
  {
  }

  /** Taking entry i out of the ring. */
  lemma RingWithout(next: Links, prev: Links, lru: seq<Id>, i: nat)
    requires Ring(next, prev, lru) && NoDuplicates(lru) && i < |lru|
    ensures Of(lru[i]) in next && Of(lru[i]) in prev
    ensures var n, p := next[Of(lru[i])], prev[Of(lru[i])]; Ring(next[p := n], prev[n := p], lru[..i] + lru[i + 1..])
  {
    RingAt(next, prev, lru, i);
    RingAt(next, prev, lru, i + 1);
    var rest := lru[..i] + lru[i + 1..];
    var n, p := next[Of(lru[i])], prev[Of(lru[i])];
    assert At(lru, i + 1) == Of(lru[i]) && p == At(lru, i) && n == At(lru, i + 2);
    forall a, b | 0 <= a < b <= |rest| + 1 && b == a + 1
      ensures Joined(next[p := n], prev[n := p], At(rest, a), At(rest, b))
    {
      if a == i {
        assert At(rest, a) == At(lru, i) && At(rest, b) == At(lru, i + 2);
      } else {
        var a', b' := if a < i then a else a + 1, if a < i then b else b + 1;
        assert At(rest, a) == At(lru, a') && At(rest, b) == At(lru, b');
        RingAt(next, prev, lru, a');
        if a < i { LinksDiffer(lru, a, i); } else { LinksDiffer(lru, i, a'); }
        if b' < i + 2 { LinksDiffer(lru, b', i + 2); } else { LinksDiffer(lru, i + 2, b'); }
        StillJoined(next, prev, At(lru, a'), At(lru, b'), p, n);
      }
    }
  }

  /** Putting an entry before the dummy head. */
  lemma RingWith(next: Links, prev: Links, lru: seq<Id>, e: Id)
    requires Ring(next, prev, lru) && NoDuplicates(lru) && e !in lru
    ensures Dummy in prev
    ensures var p := prev[Dummy];
            Ring(next[Of(e) := Dummy][p := Of(e)], prev[Of(e) := p][Dummy := Of(e)], lru + [e])
  {
    RingAt(next, prev, lru, |lru|);
    var longer, p := lru + [e], prev[Dummy];
    var next', prev' := next[Of(e) := Dummy][p := Of(e)], prev[Of(e) := p][Dummy := Of(e)];
    assert p == At(lru, |lru|) && p != Of(e);
    forall a, b | 0 <= a < b <= |longer| + 1 && b == a + 1
      ensures Joined(next', prev', At(longer, a), At(longer, b))
    {
      if a < |lru| {
        assert At(longer, a) == At(lru, a) && At(longer, b) == At(lru, b);
        RingAt(next, prev, lru, a);
        LinksDiffer(lru, a, |lru|);
        assert At(lru, a) != Of(e) && At(lru, b) != Of(e);
      }
    }
  }

  /** Touching an entry changes neither which entries the cache holds nor their tags. */
  lemma TouchHoldsSame(c: Cache, id: Id)
    requires NoDuplicates(c.lru) && id in c.lru && id in c.entries
    ensures forall x :: x in Touch(c, id).lru <==> x in c.lru
    ensures forall x :: x in Touch(c, id).entries <==> x in c.entries
    ensures forall x :: x in c.entries ==> Touch(c, id).entries[x].tag == c.entries[x].tag
  {
    WithoutIs(c.lru, id);
  }

  /** The nodes of the entries the cache holds. */
  ghost predicate NodesOf(c: Cache, nodes: set<Node>) {
    forall n :: n in nodes <==> n.id in c.lru && n.id in c.entries && c.entries[n.id].tag == n.tag
  }

  /** Nor does letting go of a handle: an entry that is freed by it is not held by the cache. */
  lemma DropHandleHoldsSame(c: Cache, id: Id, nodes: set<Node>)
    requires Inv(c) && id in c.handles && NodesOf(c, nodes)
    ensures NodesOf(DropHandle(c, id), nodes)
  {
  }

  lemma CachedWas(c: Cache, nodes: set<Node>, tag: Tag, r: Option<Id>)
    requires Inv(c) && NodesOf(c, nodes) && Finds(nodes, tag, r)
    ensures CachedAs(c, tag, r)
  {
    if r.None? {
      forall id | id in c.lru ensures c.entries[id].tag != tag {
        assert Node(id, c.entries[id].tag) in nodes;
      }
    } else {
      assert Node(r.value, tag) in nodes;
    }
  }

  lemma {:induction false} WithoutSnoc(ids: seq<Id>, e: Id, id: Id)
    requires id in ids
    ensures Without(ids + [e], id) == Without(ids, id) + [e]
  {
    assert (ids + [e])[0] == ids[0] && (ids + [e])[1..] == ids[1..] + [e];
    if ids[0] != id {
      WithoutSnoc(ids[1..], e, id);
    }
  }

  /** Adding the new entry first and dropping the old one then comes to the same. */
  lemma {:induction false} AddThenDrop(c: Cache, tag: Tag, value: int, charge: nat, id: Id)
    requires Inv(c) && id in c.lru
    ensures var a := AddEntry(c, tag, value, charge);
            && id in a.entries && a.entries[id].refs > 0 && a.usage >= a.entries[id].charge
            && LruCaches.Unref(a.(lru := Without(a.lru, id)), id) == AddEntry(DropCached(c, id), tag, value, charge)
  {
    ChargeIncluded(c, id);
    WithoutSnoc(c.lru, c.nextId, id);
    var a := AddEntry(c, tag, value, charge);
    assert id != c.nextId;
    var dropped := LruCaches.Unref(a.(lru := Without(a.lru, id)), id);
    assert dropped.entries == AddEntry(DropCached(c, id), tag, value, charge).entries;
  }

  /** The table follows: the new node in, the old one out. */
  lemma TableFollows(c: Cache, nodes: set<Node>, nodes': set<Node>, tag: Tag, value: int, charge: nat, was: Option<Id>)
    requires Inv(c) && NodesOf(c, nodes) && CachedAs(c, tag, was)
    requires nodes' == (if was.Some? then nodes - {Node(was.value, tag)} else nodes) + {Node(c.nextId, tag)}
    ensures NodesOf(AddEntry(Replacing(c, was), tag, value, charge), nodes')
  {
    assert c.nextId !in c.entries;
    if was.Some? { WithoutIs(c.lru, was.value); }
  }

  class LRUCache {
    const capacity: nat
    const table: HandleTable
    var entries: map<Id, CacheEntry>     // the entries allocated and not freed
    var usage: nat
    var next: Links
    var prev: Links
    var nextId: Id                       // the name of the next allocation
    ghost var lru: seq<Id>
    ghost var handles: multiset<Id>
    ghost var freed: seq<Id>

    ghost function St(): Cache
      reads this
    {
      Cache(entries, lru, usage, handles, freed, nextId)
    }

    /** The table finds exactly what the cache holds. */
    ghost predicate TableOk()
      reads this, table
    {
      table.Valid() && NodesOf(St(), table.nodes)
    }

    ghost predicate Valid()
      reads this, table
    {
      Inv(St()) && Ring(next, prev, lru) && TableOk()
    }

    constructor (capacity: nat)
      ensures Valid() && St() == Cache(map[], [], 0, multiset{}, [], 0) && fresh(table) && this.capacity == capacity
    {
      this.capacity := capacity;
      table := new HandleTable();
      entries, usage, nextId := map[], 0, 0;
      next, prev := map[Dummy := Dummy], map[Dummy := Dummy];
      lru, handles, freed := [], multiset{}, [];
    }

    method LRU_Remove(e: Id)
      requires Ring(next, prev, lru) && NoDuplicates(lru) && e in lru
      modifies this`next, this`prev, this`lru
      ensures Ring(next, prev, lru) && lru == Without(old(lru), e)
    {
      ghost var i :| 0 <= i < |lru| && lru[i] == e;
      RingWithout(next, prev, lru, i);
      WithoutAt(lru, i);
      var n, p := next[Of(e)], prev[Of(e)];
      prev := prev[n := p];
      next := next[p := n];
      lru := Without(lru, e);
    }

    method LRU_Append(e: Id)
      requires Ring(next, prev, lru) && NoDuplicates(lru) && e !in lru
      modifies this`next, this`prev, this`lru
      ensures Ring(next, prev, lru) && lru == old(lru) + [e]
    {
      RingWith(next, prev, lru, e);
      var p := prev[Dummy];
      next := next[Of(e) := Dummy];
      prev := prev[Of(e) := p];
      next := next[p := Of(e)];
      prev := prev[Dummy := Of(e)];
      lru := lru + [e];
    }

    /** Drops a reference and frees the entry with the last one. */
    method Unref(e: Id)
      requires e in entries && entries[e].refs > 0 && usage >= entries[e].charge
      modifies this`entries, this`usage, this`freed
      ensures St() == LruCaches.Unref(old(St()), e)
    {
      var h := entries[e];
      entries := entries[e := h.(refs := h.refs - 1)];
      if h.refs - 1 == 0 {
        usage := usage - h.charge;
        entries := entries - {e};
        freed := freed + [e];
      }
    }

    /** The cache lets go of an entry it holds. */
    method LetGo(e: Id)
      requires Ring(next, prev, lru) && NoDuplicates(lru) && e in lru
      requires e in entries && entries[e].refs > 0 && usage >= entries[e].charge
      modifies this`next, this`prev, this`lru, this`entries, this`usage, this`freed
      ensures Ring(next, prev, lru)
      ensures St() == LruCaches.Unref(old(St()).(lru := Without(old(lru), e)), e)
    {
      LRU_Remove(e);
      Unref(e);
    }

    /** Finds an entry and makes it the newest. */
    method Lookup(tag: Tag) returns (r: Option<Id>)
      requires Valid()
      modifies this
      ensures Valid() && CachedAs(old(St()), tag, r)
      ensures St() == if r.Some? then Touch(old(St()), r.value) else old(St())
    {
      r := table.Lookup(tag);
      CachedWas(St(), table.nodes, tag, r);
      if r.Some? {
        TouchKeeps(St(), r.value);
        TouchHoldsSame(St(), r.value);
        Refresh(r.value);
      }
    }

    /** Takes a reference to an entry and makes it the newest. */
    method Refresh(e: Id)
      requires Ring(next, prev, lru) && NoDuplicates(lru) && e in lru && e in entries
      modifies this`entries, this`next, this`prev, this`lru, this`handles
      ensures Ring(next, prev, lru) && St() == Touch(old(St()), e)
    {
      WithoutIs(lru, e);
      entries := entries[e := entries[e].(refs := entries[e].refs + 1)];
      LRU_Remove(e);
      LRU_Append(e);
      handles := handles + multiset{e};
    }

    method Release(handle: Id)
      requires Valid() && handle in handles
      modifies this
      ensures Valid() && St() == DropHandle(old(St()), handle)
    {
      ChargeIncluded(St(), handle);
      DropHandleKeeps(St(), handle);
      DropHandleHoldsSame(St(), handle, table.nodes);
      GiveBack(handle);
    }

    method GiveBack(handle: Id)
      requires handle in handles && handle in entries && entries[handle].refs > 0 && usage >= entries[handle].charge
      modifies this`entries, this`usage, this`freed, this`handles
      ensures St() == LruCaches.Unref(old(St()).(handles := old(handles) - multiset{handle}), handle)
    {
      handles := handles - multiset{handle};
      Unref(handle);
    }

    method Erase(tag: Tag) returns (ghost r: Option<Id>)
      requires Valid()
      modifies this, table
      ensures Valid() && CachedAs(old(St()), tag, r)
      ensures St() == if r.Some? then DropCached(old(St()), r.value) else old(St())
    {
      var e := table.Remove(tag);
      CachedWas(St(), old(table.nodes), tag, e);
      r := e;
      if e.Some? {
        ChargeIncluded(St(), e.value);
        DropCachedKeeps(St(), e.value);
        WithoutIs(lru, e.value);
        LetGo(e.value);
      }
    }

    /** The new entry is held by the cache and by the caller. */
    method Allocate(tag: Tag, value: int, charge: nat) returns (e: Id)
      requires Ring(next, prev, lru) && ListOk(St()) && nextId !in entries
      modifies this`entries, this`usage, this`next, this`prev, this`lru, this`handles, this`nextId
      ensures Ring(next, prev, lru) && e == old(nextId) && St() == AddEntry(old(St()), tag, value, charge)
    {
      e := nextId;
      nextId := nextId + 1;
      entries := entries[e := CacheEntry(tag, value, charge, 2)];
      LRU_Append(e);
      usage := usage + charge;
      handles := handles + multiset{e};
    }

    /** Lets go of the oldest entry. */
    method EvictOldest()
      requires Valid() && lru != []
      modifies this, table
      ensures Valid() && St() == DropCached(old(St()), old(lru)[0])
    {
      RingAt(next, prev, lru, 0);
      var e := next[Dummy].id;
      assert e == lru[0];
      ChargeIncluded(St(), e);
      DropCachedKeeps(St(), e);
      WithoutIs(lru, e);
      OnlyOneTag(St(), e, entries[e].tag);
      assert Node(e, entries[e].tag) in table.nodes;
      var _ := table.Remove(entries[e].tag);
      LetGo(e);
    }

    /** Lets go of entries until the rest fits. */
    method Shrink()
      requires Valid()
      modifies this, table
      ensures Valid() && St() == Evict(old(St()), capacity)
    {
      ghost var goal := Evict(St(), capacity);
      RingAt(next, prev, lru, 0);
      while usage > capacity && next[Dummy] != Dummy
        invariant Valid() && Dummy in next && goal == Evict(St(), capacity)
        decreases |lru|
      {
        RingAt(next, prev, lru, 0);
        WithoutAt(lru, 0);
        EvictOldest();
        RingAt(next, prev, lru, 0);
      }
      RingAt(next, prev, lru, 0);
    }

    /** Adds an entry in place of the one with its tag, and shrinks the cache. */
    method Insert(tag: Tag, value: int, charge: nat) returns (e: Id, ghost was: Option<Id>)
      requires Valid()
      modifies this, table
      ensures Valid() && e == old(nextId) && CachedAs(old(St()), tag, was)
      ensures St() == InsertInto(old(St()), tag, value, charge, was, capacity)
    {
      e, was := Replace(tag, value, charge);
      Shrink();
    }

    /** Adds the entry and lets go of the one with its tag. */
    method Replace(tag: Tag, value: int, charge: nat) returns (e: Id, ghost was: Option<Id>)
      requires Valid()
      modifies this, table
      ensures Valid() && e == old(nextId) && CachedAs(old(St()), tag, was)
      ensures St() == AddEntry(Replacing(old(St()), was), tag, value, charge)
    {
      ghost var c, nodes := St(), table.nodes;
      assert nextId !in entries;
      e := Allocate(tag, value, charge);
      var prior := table.Insert(Node(e, tag));
      CachedWas(c, nodes, tag, prior);
      was := prior;
      DropPrior(prior, c, tag, value, charge);
      ReplacedKeeps(c, tag, value, charge, prior);
      TableFollows(c, nodes, table.nodes, tag, value, charge, prior);
    }

    /** With the new entry in place, the cache lets go of the one with its tag. */
    method DropPrior(prior: Option<Id>, ghost c: Cache, ghost tag: Tag, ghost value: int, ghost charge: nat)
      requires Inv(c) && CachedAs(c, tag, prior) && St() == AddEntry(c, tag, value, charge) && Ring(next, prev, lru)
      modifies this`next, this`prev, this`lru, this`entries, this`usage, this`freed
      ensures Ring(next, prev, lru) && St() == AddEntry(Replacing(c, prior), tag, value, charge)
    {
      if prior.Some? {
        AddThenDrop(c, tag, value, charge, prior.value);
        assert c.nextId !in c.entries;
        LetGo(prior.value);
      }
    }

    /** The destructor: every entry of the list is given up, and with no handle out all are freed. */
    method Destroy()
      requires Valid() && handles == multiset{}
      modifies this`entries, this`usage, this`freed
      ensures entries == map[] && usage == 0 && freed == old(freed) + old(lru)
      ensures forall id: Id :: id < nextId ==> id in freed
    {
      ghost var c := St();
      ghost var i := 0;
      RingAt(next, prev, lru, 0);
      var e := next[Dummy];
      while e != Dummy
        invariant i <= |lru| && e == At(lru, i + 1) && Given(c, St(), i)
        decreases |lru| - i
      {
        RingAt(next, prev, lru, i + 1);
        var following := next[e];
        GivesNext(c, St(), i);
        Unref(e.id);
        e := following;
        i := i + 1;
      }
      DrainFreesAll(c);
    }
  }

  /** The first i entries of the list have been given up, though the list still has them. */
  ghost predicate Given(c: Cache, now: Cache, i: nat)
    requires Inv(c)
  {
    i <= |c.lru| && now.(lru := c.lru[i..]) == DropOldest(c, i) && now.lru == c.lru
  }

  lemma GivesNext(c: Cache, now: Cache, i: nat)
    requires Inv(c) && i < |c.lru| && Given(c, now, i)
    ensures var e := c.lru[i];
            && e in now.entries && now.entries[e].refs > 0 && now.usage >= now.entries[e].charge
            && Given(c, LruCaches.Unref(now, e), i + 1)
  {
    DropNext(c, i, c.lru[i]);
  }

  /** One entry more dropped from the front. */
  lemma {:induction false} DropNext(c: Cache, i: nat, e: Id)
    requires Inv(c) && i < |c.lru| && e == c.lru[i]
    ensures var d := DropOldest(c, i);
            && e in d.entries && d.entries[e].refs > 0 && d.usage >= d.entries[e].charge
            && DropOldest(c, i + 1) == LruCaches.Unref(d.(lru := c.lru[i + 1..]), e)
    decreases i
  {
    WithoutAt(c.lru, 0);
    DropCachedKeeps(c, c.lru[0]);
    if i == 0 {
      ChargeIncluded(c, e);
    } else {
      DropNext(DropCached(c, c.lru[0]), i - 1, e);
    }
  }
}
