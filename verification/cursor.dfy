/** The cursor every layer of iterators presents: a place in a sorted list of entries.
    A cursor that is not at an entry answers only to the three seeks. */
module Cursors {
  import opened Format

  /** The iterator over one sorted run (a memtable or one table), with the interface of
      `Iterator`; `pos == |items|` marks it not valid. */
  class ListCursor {
    const items: seq<Entry>
    var pos: nat

    ghost predicate Inv()
      reads this
    {
      pos <= |items| && Sorted(items)
    }

    predicate Valid()
      reads this
    {
      pos < |items|
    }

    function Key(): IKey
      requires Valid()
      reads this
    {
      items[pos].key
    }

    constructor (es: seq<Entry>)
      requires Sorted(es)
      ensures Inv() && items == es && !Valid()
    {
      items := es;
      pos := |es|;
    }

    method SeekToFirst()
      requires Inv()
      modifies this
      ensures Inv() && pos == 0
    {
      pos := 0;
    }

    method SeekToLast()
      requires Inv()
      modifies this
      ensures Inv() && pos == if items == [] then 0 else |items| - 1
    {
      pos := if items == [] then 0 else |items| - 1;
    }

    method Seek(target: IKey)
      requires Inv()
      modifies this
      ensures Inv() && pos == LowerBound(items, target)
    {
      var left, right := 0, |items|;
      while left < right
        invariant 0 <= left <= right <= |items|
        invariant left > 0 ==> Less(items[left - 1].key, target)
        invariant right < |items| ==> !Less(items[right].key, target)
      {
        var mid := (left + right) / 2;
        if Less(items[mid].key, target) {
          left := mid + 1;
        } else {
          right := mid;
        }
      }
      LowerBoundUnique(items, target, right);
      pos := right;
    }

    method Next()
      requires Inv() && Valid()
      modifies this
      ensures Inv() && pos == old(pos) + 1
    {
      pos := pos + 1;
    }

    method Prev()
      requires Inv() && Valid()
      modifies this
      ensures Inv() && pos == if old(pos) == 0 then |items| else old(pos) - 1
    {
      if pos == 0 {
        pos := |items|;
      } else {
        pos := pos - 1;
      }
    }
  }
}
