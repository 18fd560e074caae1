/** The cache's hash table: an array of chains, doubled as it fills up. */
module HandleTables {
  import opened Format
  import opened Coding
  import opened Bits

  type Id = nat

  /** What identifies an entry: its key and the hash it was given with. */
  datatype Tag = Tag(key: Bytes, hash: word)

  datatype Node = Node(id: Id, tag: Tag)

  /** The nodes of a table: one for a tag. */
  ghost predicate OnePerTag(nodes: set<Node>) {
    forall m, n :: m in nodes && n in nodes && m.tag == n.tag ==> m == n
  }

  /** A chain holds no tag twice. */
  ghost predicate DistinctTags(chain: seq<Node>) {
    forall i, j :: 0 <= i < j < |chain| ==> chain[i].tag != chain[j].tag
  }

  /** Chain b holds exactly the nodes whose hashes lead to it. */
  ghost predicate ChainHolds(chain: seq<Node>, length: nat, b: nat, nodes: set<Node>)
    requires length > 0
  {
    && DistinctTags(chain)
    && (forall n :: n in chain <==> n in nodes && n.tag.hash % length == b)
  }

  ghost predicate Holds(list: seq<seq<Node>>, nodes: set<Node>) {
    list != [] && forall b :: 0 <= b < |list| ==> ChainHolds(list[b], |list|, b, nodes)
  }

  /** The bucket of a hash in a table of 2^bits buckets: the hash masked. */
  function Bucket(hash: word, ghost bits: nat, length: nat): (b: nat)
    requires length == Pow2(bits)
    ensures b == hash % length
  {
    MaskIsRemainder(hash, bits);
    And(hash, length - 1)
  }

  /** The node of a tag, if there is one. */
  ghost predicate Finds(nodes: set<Node>, tag: Tag, r: Option<Id>) {
    match r
    case Some(id) => Node(id, tag) in nodes
    case None => forall n :: n in nodes ==> n.tag != tag
  }

  /** The nodes without the one found for a tag, if there is one. */
  ghost function WithoutTag(nodes: set<Node>, found: Option<Id>, tag: Tag): set<Node> {
    if found.Some? then nodes - {Node(found.value, tag)} else nodes
  }

  class HandleTable {
    var list: seq<seq<Node>>
    var elems: nat
    ghost var nodes: set<Node>
    ghost var bits: nat

    ghost predicate Valid()
      reads this
    {
      && OnePerTag(nodes) && Holds(list, nodes) && elems == |nodes|
      && |list| >= 4 && |list| == Pow2(bits) && elems <= |list|
    }

    constructor ()
      ensures Valid() && nodes == {}
    {
      list := [[], [], [], []];
      elems := 0;
      nodes, bits := {}, 2;
    }

    /** The position in its chain of the entry with this tag, or the end of the chain. */
    method FindPointer(tag: Tag) returns (b: nat, i: nat)
      requires |list| == Pow2(bits)
      ensures b == tag.hash % |list| && i <= |list[b]|
      ensures i < |list[b]| ==> list[b][i].tag == tag
      ensures i == |list[b]| ==> forall j :: 0 <= j < |list[b]| ==> list[b][j].tag != tag
    {
      b := Bucket(tag.hash, bits, |list|);
      i := 0;
      while i < |list[b]| && list[b][i].tag != tag
        invariant i <= |list[b]| && forall j :: 0 <= j < i ==> list[b][j].tag != tag
      {
        i := i + 1;
      }
    }

    method Lookup(tag: Tag) returns (r: Option<Id>)
      requires Valid()
      ensures Finds(nodes, tag, r)
    {
      var b, i := FindPointer(tag);
      if i < |list[b]| {
        assert list[b][i] in list[b];
        r := Some(list[b][i].id);
      } else {
        NotInChain(list[b], |list|, b, nodes, tag);
        r := None;
      }
    }

    /** Puts the node in, in place of the one with its tag. */
    method Insert(h: Node) returns (prior: Option<Id>)
      requires Valid()
      modifies this
      ensures Valid() && Finds(old(nodes), h.tag, prior)
      ensures nodes == WithoutTag(old(nodes), prior, h.tag) + {h}
    {
      var b, i := FindPointer(h.tag);
      ghost var was := nodes;
      if i < |list[b]| {
        var n := list[b][i];
        assert n in list[b];
        prior := Some(n.id);
        assert n == Node(n.id, h.tag);
        nodes := WithoutTag(was, prior, h.tag) + {h};
        Replaced(list, was, b, i, h);
        list := list[b := list[b][i := h]];
      } else {
        NotInChain(list[b], |list|, b, nodes, h.tag);
        prior := None;
        nodes := WithoutTag(was, prior, h.tag) + {h};
        Appended(list, was, b, h);
        list := list[b := list[b] + [h]];
        elems := elems + 1;
        if elems > |list| {
          Resize();
        }
      }
    }

    method Remove(tag: Tag) returns (r: Option<Id>)
      requires Valid()
      modifies this
      ensures Valid() && Finds(old(nodes), tag, r)
      ensures nodes == WithoutTag(old(nodes), r, tag)
    {
      var b, i := FindPointer(tag);
      if i < |list[b]| {
        var n := list[b][i];
        assert n in list[b];
        r := Some(n.id);
        Dropped(list, nodes, b, i);
        list := list[b := list[b][..i] + list[b][i + 1..]];
        nodes := nodes - {n};
        elems := elems - 1;
      } else {
        NotInChain(list[b], |list|, b, nodes, tag);
        r := None;
      }
    }

    /** Moves every node to a table large enough. */
    method Resize()
      requires OnePerTag(nodes) && Holds(list, nodes) && elems == |nodes|
      modifies this`list, this`bits
      ensures Valid()
    {
      var newLength := 4;
      ghost var newBits := 2;
      while newLength < elems
        invariant newLength >= 4 && newLength == Pow2(newBits)
      {
        newLength := newLength * 2;
        newBits := newBits + 1;
      }
      list := Rehash(list, newLength, nodes, newBits);
      bits := newBits;
    }

    /** A table of the new length with the same nodes. */
    static method Rehash(chains: seq<seq<Node>>, newLength: nat, ghost nodes: set<Node>,
                         ghost bits: nat) returns (newList: seq<seq<Node>>)
      requires Holds(chains, nodes) && OnePerTag(nodes) && newLength == Pow2(bits)
      ensures |newList| == newLength && Holds(newList, nodes)
    {
      newList := seq(newLength, i => []);
      ghost var moved: set<Node> := {};
      for i := 0 to |chains|
        invariant |newList| == newLength && Holds(newList, moved)
        invariant moved == FirstChains(chains, i)
      {
        ChainNotMoved(chains, nodes, i);
        newList := MoveChain(chains[i], newList, moved, nodes, bits);
        moved := moved + ToSet(chains[i]);
      }
      AllChains(chains, nodes);
    }

    /** Moves the nodes of one chain, each to the front of its new chain. */
    static method MoveChain(chain: seq<Node>, newList0: seq<seq<Node>>, ghost moved: set<Node>, ghost nodes: set<Node>,
                            ghost bits: nat)
      returns (newList: seq<seq<Node>>)
      requires Holds(newList0, moved) && OnePerTag(nodes) && moved <= nodes && DistinctTags(chain) && |newList0| == Pow2(bits)
      requires forall n :: n in chain ==> n in nodes && n !in moved
      ensures |newList| == |newList0| && Holds(newList, moved + ToSet(chain))
    {
      newList := newList0;
      for j := 0 to |chain|
        invariant |newList| == |newList0| && Holds(newList, moved + ToSet(chain[..j]))
      {
        var h := chain[j];
        var b := Bucket(h.tag.hash, bits, |newList|);
        ghost var before := moved + ToSet(chain[..j]);
        forall n | n in before ensures n.tag != h.tag { TagsDiffer(chain, j, moved, nodes, n); }
        Prepended(newList, before, b, h);
        newList := newList[b := [h] + newList[b]];
        assert ToSet(chain[..j + 1]) == ToSet(chain[..j]) + {h} by { assert chain[..j + 1] == chain[..j] + [h]; }
        assert moved + ToSet(chain[..j + 1]) == before + {h};
      }
      assert chain[..|chain|] == chain;
    }
  }

  ghost function ToSet(chain: seq<Node>): set<Node> {
    set n | n in chain
  }

  /** The nodes of the first i chains. */
  ghost function FirstChains(list: seq<seq<Node>>, i: nat): set<Node>
    requires i <= |list|
  {
    if i == 0 then {} else FirstChains(list, i - 1) + ToSet(list[i - 1])
  }

  lemma {:induction false} FirstChainsAre(list: seq<seq<Node>>, nodes: set<Node>, i: nat, n: Node)
    requires Holds(list, nodes) && i <= |list|
    ensures n in FirstChains(list, i) <==> n in nodes && n.tag.hash % |list| < i
  {
    if i > 0 {
      FirstChainsAre(list, nodes, i - 1, n);
      assert ChainHolds(list[i - 1], |list|, i - 1, nodes);
    }
  }

  lemma {:induction false} ChainNotMoved(list: seq<seq<Node>>, nodes: set<Node>, i: nat)
    requires Holds(list, nodes) && i < |list|
    ensures DistinctTags(list[i]) && FirstChains(list, i) <= nodes
    ensures forall n :: n in list[i] ==> n in nodes && n !in FirstChains(list, i)
  {
    assert ChainHolds(list[i], |list|, i, nodes);
    forall n | n in FirstChains(list, i) ensures n in nodes { FirstChainsAre(list, nodes, i, n); }
    forall n | n in list[i] ensures n in nodes && n !in FirstChains(list, i) { FirstChainsAre(list, nodes, i, n); }
  }

  lemma {:induction false} AllChains(list: seq<seq<Node>>, nodes: set<Node>)
    requires Holds(list, nodes)
    ensures FirstChains(list, |list|) == nodes
  {
    forall n ensures n in FirstChains(list, |list|) <==> n in nodes { FirstChainsAre(list, nodes, |list|, n); }
  }

  lemma NotInChain(chain: seq<Node>, length: nat, b: nat, nodes: set<Node>, tag: Tag)
    requires length > 0 && ChainHolds(chain, length, b, nodes) && tag.hash % length == b
    requires forall j :: 0 <= j < |chain| ==> chain[j].tag != tag
    ensures forall n :: n in nodes ==> n.tag != tag
  {
    forall n | n in nodes && n.tag.hash % length == b
      ensures n.tag != tag
    {
      assert n in chain;
    }
  }

  lemma TagsDiffer(chain: seq<Node>, j: nat, moved: set<Node>, nodes: set<Node>, n: Node)
    requires j < |chain| && OnePerTag(nodes) && moved <= nodes && DistinctTags(chain)
    requires forall m :: m in chain ==> m in nodes && m !in moved
    requires n in moved + ToSet(chain[..j])
    ensures n.tag != chain[j].tag
  {
    assert chain[j] in chain;
    if n in chain[..j] {
      var i :| 0 <= i < j && chain[i] == n;
    }
  }

  lemma ChainReplaced(chain: seq<Node>, length: nat, b: nat, nodes: set<Node>, i: nat, h: Node)
    requires length > 0 && ChainHolds(chain, length, b, nodes) && OnePerTag(nodes) && i < |chain|
    requires chain[i].tag == h.tag && h.tag.hash % length == b
    ensures ChainHolds(chain[i := h], length, b, nodes - {chain[i]} + {h})
  {
    assert chain[i] in chain;
    forall n
      ensures n in chain[i := h] <==> n == h || (n in chain && n != chain[i])
    {
      InReplaced(chain, i, h, n);
    }
  }

  lemma InReplaced(chain: seq<Node>, i: nat, h: Node, n: Node)
    requires DistinctTags(chain) && i < |chain|
    ensures n in chain[i := h] <==> n == h || (n in chain && n != chain[i])
  {
    var chain' := chain[i := h];
    assert chain'[i] == h;
    if n in chain && n != chain[i] {
      var k :| 0 <= k < |chain| && chain[k] == n;
      assert chain'[k] == n;
    }
  }

  lemma Replaced(list: seq<seq<Node>>, nodes: set<Node>, b: nat, i: nat, h: Node)
    requires Holds(list, nodes) && OnePerTag(nodes) && b < |list| && i < |list[b]|
    requires list[b][i].tag == h.tag && h.tag.hash % |list| == b
    ensures Holds(list[b := list[b][i := h]], nodes - {list[b][i]} + {h})
    ensures OnePerTag(nodes - {list[b][i]} + {h}) && |nodes - {list[b][i]} + {h}| == |nodes|
  {
    var prior := list[b][i];
    var list', nodes' := list[b := list[b][i := h]], nodes - {prior} + {h};
    assert ChainHolds(list[b], |list|, b, nodes) && prior in list[b];
    ChainReplaced(list[b], |list|, b, nodes, i, h);
    forall c | 0 <= c < |list'|
      ensures ChainHolds(list'[c], |list'|, c, nodes')
    {
      assert ChainHolds(list[c], |list|, c, nodes);
    }
    assert h in nodes ==> h == prior;
  }

  lemma Appended(list: seq<seq<Node>>, nodes: set<Node>, b: nat, h: Node)
    requires Holds(list, nodes) && OnePerTag(nodes) && b < |list| && h.tag.hash % |list| == b
    requires forall n :: n in nodes ==> n.tag != h.tag
    ensures Holds(list[b := list[b] + [h]], nodes + {h})
    ensures OnePerTag(nodes + {h}) && |nodes + {h}| == |nodes| + 1
  {
    var list', nodes' := list[b := list[b] + [h]], nodes + {h};
    forall c | 0 <= c < |list'|
      ensures ChainHolds(list'[c], |list'|, c, nodes')
    {
      assert ChainHolds(list[c], |list|, c, nodes);
      assert forall i :: 0 <= i < |list[c]| ==> list[c][i] in list[c];
    }
  }

  lemma Prepended(list: seq<seq<Node>>, nodes: set<Node>, b: nat, h: Node)
    requires Holds(list, nodes) && b < |list| && h.tag.hash % |list| == b
    requires forall n :: n in nodes ==> n.tag != h.tag
    ensures Holds(list[b := [h] + list[b]], nodes + {h})
  {
    var list', nodes' := list[b := [h] + list[b]], nodes + {h};
    forall c | 0 <= c < |list'|
      ensures ChainHolds(list'[c], |list'|, c, nodes')
    {
      assert ChainHolds(list[c], |list|, c, nodes);
      assert forall i :: 0 <= i < |list[c]| ==> list[c][i] in list[c];
    }
  }

  lemma InWithout(chain: seq<Node>, i: nat, n: Node)
    requires DistinctTags(chain) && i < |chain|
    ensures n in chain[..i] + chain[i + 1..] <==> n in chain && n != chain[i]
  {
    var chain' := chain[..i] + chain[i + 1..];
    if n in chain' {
      var k :| 0 <= k < |chain'| && chain'[k] == n;
      var k' := if k < i then k else k + 1;
      assert chain[k'] == n && n.tag != chain[i].tag;
    }
    if n in chain && n != chain[i] {
      var k :| 0 <= k < |chain| && chain[k] == n;
      assert chain'[if k < i then k else k - 1] == n;
    }
  }

  lemma ChainWithout(chain: seq<Node>, length: nat, b: nat, i: nat, nodes: set<Node>)
    requires length > 0 && ChainHolds(chain, length, b, nodes) && i < |chain|
    ensures ChainHolds(chain[..i] + chain[i + 1..], length, b, nodes - {chain[i]})
  {
    forall n
      ensures n in chain[..i] + chain[i + 1..] <==> n in chain && n != chain[i]
    {
      InWithout(chain, i, n);
    }
  }

  lemma Dropped(list: seq<seq<Node>>, nodes: set<Node>, b: nat, i: nat)
    requires Holds(list, nodes) && OnePerTag(nodes) && b < |list| && i < |list[b]|
    ensures Holds(list[b := list[b][..i] + list[b][i + 1..]], nodes - {list[b][i]})
    ensures OnePerTag(nodes - {list[b][i]}) && list[b][i] in nodes && |nodes - {list[b][i]}| == |nodes| - 1
  {
    var chain, prior, nodes' := list[b], list[b][i], nodes - {list[b][i]};
    var chain' := chain[..i] + chain[i + 1..];
    assert ChainHolds(chain, |list|, b, nodes) && prior in chain;
    ChainWithout(chain, |list|, b, i, nodes);
    var list' := list[b := chain'];
    forall c | 0 <= c < |list'|
      ensures ChainHolds(list'[c], |list'|, c, nodes')
    {
      assert ChainHolds(list[c], |list|, c, nodes);
    }
  }
}
