/** The skip list: pointers level by level, and the searches and the insertion over them.
    A node stands for its key, since the list never holds a key twice. */
module SkipLists {
  import opened Format

  const MAX_HEIGHT: nat := 12

  datatype Node = Head | At(key: int)

  /** One level's pointers: from a node to the next one's key, None for the end of the list. */
  type Pointers = map<Node, Option<int>>

  type Tower = next: seq<Pointers> | |next| == MAX_HEIGHT witness seq(MAX_HEIGHT, i => map[])

  /** The keys linked on each level. */
  type KeySets = linked: seq<set<int>> | |linked| == MAX_HEIGHT witness seq(MAX_HEIGHT, i => {})

  /** k lies behind n. */
  predicate Behind(n: Node, k: int) {
    n == Head || n.key < k
  }

  /** n is the head or one of the nodes whose keys are in s. */
  predicate On(n: Node, s: set<int>) {
    n == Head || n.key in s
  }

  /** r is the least key of s that satisfies nothing but lying behind n. */
  ghost predicate IsNext(s: set<int>, n: Node, r: Option<int>) {
    match r
    case Some(m) => m in s && Behind(n, m) && forall k :: k in s && Behind(n, k) ==> m <= k
    case None => forall k :: k in s ==> !Behind(n, k)
  }

  /** The pointers chain exactly the keys of s, in ascending order. */
  ghost predicate Chains(next: Pointers, s: set<int>) {
    forall n: Node :: On(n, s) ==> n in next && IsNext(s, n, next[n])
  }

  /** Every level chains its keys, and the keys of a level are among those of the one below. */
  ghost predicate WellLinked(next: Tower, linked: KeySets, maxHeight: nat) {
    && 1 <= maxHeight <= MAX_HEIGHT
    && (forall i :: 0 <= i < MAX_HEIGHT ==> Chains(next[i], linked[i]))
    && (forall i, j :: 0 <= i < j < MAX_HEIGHT ==> linked[j] <= linked[i])
    && (forall i :: maxHeight <= i < MAX_HEIGHT ==> linked[i] == {})
  }

  /** key goes between p and the next key of s. */
  ghost predicate Precedes(s: set<int>, p: Node, key: int) {
    On(p, s) && Behind(p, key) && forall k :: k in s && Behind(p, k) ==> key <= k
  }

  /** r is the least key of s at or after the target. */
  ghost predicate IsCeiling(s: set<int>, target: int, r: Option<int>) {
    match r
    case Some(m) => m in s && target <= m && forall k :: k in s && target <= k ==> m <= k
    case None => forall k :: k in s ==> k < target
  }

  /** n is the last node of s before the target. */
  ghost predicate IsFloor(s: set<int>, target: int, n: Node) {
    On(n, s) && Behind(n, target) && forall k :: k in s && k < target ==> n.At? && k <= n.key
  }

  /** n is the last node of s. */
  ghost predicate IsLast(s: set<int>, n: Node) {
    On(n, s) && forall k :: k in s ==> n.At? && k <= n.key
  }

  /** Linking `key` behind p: first its own pointer, then p's. */
  lemma LinkChains(next: Pointers, s: set<int>, p: Node, key: int, next': Pointers)
    requires Chains(next, s) && Precedes(s, p, key) && key !in s
    requires next' == next[At(key) := next[p]][p := Some(key)]
    ensures Chains(next', s + {key})
  {
    forall n: Node | On(n, s + {key})
      ensures n in next' && IsNext(s + {key}, n, next'[n])
    {
      if n != At(key) { assert On(n, s); }
      assert IsNext(s, p, next[p]);
    }
  }

  /** The pointer of a node that no pointer of this level leads to yet. */
  lemma HiddenPointer(next: Pointers, s: set<int>, key: int, r: Option<int>)
    requires Chains(next, s) && key !in s
    ensures Chains(next[At(key) := r], s)
  {
  }

  /** How far a search may still go on its level. */
  ghost function Ahead(s: set<int>, n: Node): set<int> {
    set k | k in s && Behind(n, k)
  }

  lemma MovesAhead(s: set<int>, n: Node, k: int)
    requires k in s && Behind(n, k)
    ensures |Ahead(s, At(k))| < |Ahead(s, n)|
  {
    assert Ahead(s, At(k)) < Ahead(s, n) by { assert k in Ahead(s, n); }
    SmallerSet(Ahead(s, At(k)), Ahead(s, n));
  }

  class SkipList {
    var next: Tower
    var maxHeight: nat
    ghost var linked: KeySets

    ghost predicate Valid()
      reads this
    {
      WellLinked(next, linked, maxHeight)
    }

    /** The keys inserted so far. */
    ghost function Keys(): set<int>
      requires Valid()
      reads this
    {
      linked[0]
    }

    constructor ()
      ensures Valid() && Keys() == {}
    {
      next := seq(MAX_HEIGHT, i => map[Head := None]);
      linked := seq(MAX_HEIGHT, i => {});
      maxHeight := 1;
    }

    predicate KeyIsAfterNode(key: int, n: Option<int>) {
      n.Some? && n.value < key
    }

    /** Reads one pointer of a node that is on the level. */
    function Next(n: Node, level: nat): (r: Option<int>)
      requires Valid() && level < MAX_HEIGHT && On(n, linked[level])
      reads this
      ensures IsNext(linked[level], n, r)
    {
      next[level][n]
    }

    /** The first key at or after the target, and for every level the node before it. */
    method FindGreaterOrEqual(key: int) returns (r: Option<int>, prev: seq<Node>)
      requires Valid()
      ensures IsCeiling(Keys(), key, r)
      ensures |prev| == maxHeight && forall i :: 0 <= i < maxHeight ==> Precedes(linked[i], prev[i], key)
    {
      var x, level := Head, maxHeight - 1;
      prev := seq(maxHeight, i => Head);
      while true
        invariant 0 <= level < maxHeight && |prev| == maxHeight
        invariant On(x, linked[level]) && Behind(x, key)
        invariant forall i :: level < i < maxHeight ==> Precedes(linked[i], prev[i], key)
        decreases level, |Ahead(linked[level], x)|
      {
        r := Next(x, level);
        if KeyIsAfterNode(key, r) {
          MovesAhead(linked[level], x, r.value);
          x := At(r.value);
        } else {
          prev := prev[level := x];
          if level == 0 {
            return;
          }
          level := level - 1;
        }
      }
    }

    method FindLessThan(key: int) returns (x: Node)
      requires Valid()
      ensures IsFloor(Keys(), key, x)
    {
      var level := maxHeight - 1;
      x := Head;
      while true
        invariant 0 <= level < maxHeight
        invariant On(x, linked[level]) && Behind(x, key)
        decreases level, |Ahead(linked[level], x)|
      {
        var r := Next(x, level);
        if r.None? || r.value >= key {
          if level == 0 {
            return;
          }
          level := level - 1;
        } else {
          MovesAhead(linked[level], x, r.value);
          x := At(r.value);
        }
      }
    }

    method FindLast() returns (x: Node)
      requires Valid()
      ensures IsLast(Keys(), x)
    {
      var level := maxHeight - 1;
      x := Head;
      while true
        invariant 0 <= level < maxHeight && On(x, linked[level])
        decreases level, |Ahead(linked[level], x)|
      {
        var r := Next(x, level);
        if r.None? {
          if level == 0 {
            return;
          }
          level := level - 1;
        } else {
          MovesAhead(linked[level], x, r.value);
          x := At(r.value);
        }
      }
    }

    method Contains(key: int) returns (b: bool)
      requires Valid()
      ensures b <==> key in Keys()
    {
      var x, _ := FindGreaterOrEqual(key);
      b := x == Some(key);
    }

    /** Links a key that is not in the list yet, at the height the generator chose. */
    method Insert(key: int, height: nat)
      requires Valid() && key !in Keys() && 1 <= height <= MAX_HEIGHT
      modifies this
      ensures Valid() && Keys() == old(Keys()) + {key}
    {
      var x, prev := FindGreaterOrEqual(key);
      if height > maxHeight {
        prev := prev + seq(height - maxHeight, i => Head);
        maxHeight := height;
      }
      assert forall i :: 0 <= i < height ==> Precedes(linked[i], prev[i], key);
      for i := 0 to height
        invariant Valid() && maxHeight >= height
        invariant forall j :: 0 <= j < i ==> linked[j] == old(linked[j]) + {key}
        invariant forall j :: i <= j < MAX_HEIGHT ==> linked[j] == old(linked[j])
      {
        LinkLevel(i, prev[i], key);
      }
    }

    /** One round of the loop of `Insert`. */
    method LinkLevel(i: nat, prev: Node, key: int)
      requires Valid() && i < maxHeight && Precedes(linked[i], prev, key) && key !in linked[i]
      requires forall j :: 0 <= j < i ==> key in linked[j]
      modifies this`next, this`linked
      ensures Valid() && linked == old(linked)[i := old(linked[i]) + {key}]
    {
      LinkChains(next[i], linked[i], prev, key, next[i][At(key) := next[i][prev]][prev := Some(key)]);
      next := next[i := next[i][At(key) := next[i][prev]]];
      next := next[i := next[i][prev := Some(key)]];
      linked := linked[i := linked[i] + {key}];
    }
  }

  /** The iterator: a node, or none when it is not valid. */
  class ListIterator {
    const list: SkipList
    var node: Option<int>

    ghost predicate Valid()
      reads this, list
    {
      list.Valid() && (node.Some? ==> node.value in list.Keys())
    }

    constructor (list: SkipList)
      requires list.Valid()
      ensures Valid() && this.list == list && node == None
    {
      this.list := list;
      node := None;
    }

    method Seek(target: int)
      requires Valid()
      modifies this
      ensures Valid() && IsCeiling(list.Keys(), target, node)
    {
      var r, _ := list.FindGreaterOrEqual(target);
      node := r;
    }

    method Next()
      requires Valid() && node.Some?
      modifies this
      ensures Valid() && IsCeiling(list.Keys(), old(node).value + 1, node)
    {
      node := list.Next(At(node.value), 0);
    }

    /** Steps back by searching for the last node before this key. */
    method Prev()
      requires Valid() && node.Some?
      modifies this
      ensures Valid()
      ensures IsFloor(list.Keys(), old(node).value, if node.Some? then At(node.value) else Head)
    {
      var n := list.FindLessThan(node.value);
      node := if n == Head then None else Some(n.key);
    }

    method SeekToFirst()
      requires Valid()
      modifies this
      ensures Valid() && IsNext(list.Keys(), Head, node)
    {
      node := list.Next(Head, 0);
    }

    method SeekToLast()
      requires Valid()
      modifies this
      ensures Valid() && IsLast(list.Keys(), if node.Some? then At(node.value) else Head)
    {
      var n := list.FindLast();
      node := if n == Head then None else Some(n.key);
    }
  }
}
