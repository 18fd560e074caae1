/** One version of the tree of table files: seven levels, the first unordered, the rest sorted by
    internal key; how files are found, picked and read. */
module Versions {
  import opened Format
  import opened SnapshotSpec

  const NUM_LEVELS := 7
  const MAX_MEM_COMPACT_LEVEL := 2
  const TARGET_FILE_SIZE := 2 * 1048576
  const MAX_GRANDPARENT_OVERLAP := 10 * TARGET_FILE_SIZE
  const EXPANDED_COMPACTION_LIMIT := 25 * TARGET_FILE_SIZE

  /** A table file: its metadata and the entries its number leads to. */
  datatype File = File(number: nat, size: nat, smallest: IKey, largest: IKey, entries: seq<Entry>)

  type Levels = seq<seq<File>>

  ghost predicate GoodFile(f: File) {
    && f.entries != [] && Sorted(f.entries)
    && f.smallest == f.entries[0].key && f.largest == f.entries[|f.entries| - 1].key
    && forall e {:trigger e in f.entries} :: e in f.entries ==> e.key.sequence <= MAX_SEQUENCE
  }

  lemma EntryInRange(f: File, e: Entry)
    requires GoodFile(f) && e in f.entries
    ensures f.smallest.user <= e.key.user <= f.largest.user
    ensures !Less(e.key, f.smallest) && !Less(f.largest, e.key)
  {
    var i :| 0 <= i < |f.entries| && f.entries[i] == e;
    assert i > 0 ==> Less(f.entries[0].key, f.entries[i].key);
    assert i < |f.entries| - 1 ==> Less(f.entries[i].key, f.entries[|f.entries| - 1].key);
  }

  /** a comes before b in the internal order; sequence numbers being unique, of one user key it
      is the newer one. */
  predicate Precedes(a: IKey, b: IKey) {
    a.user < b.user || (a.user == b.user && a.sequence > b.sequence)
  }

  /** The files are in order of internal keys.  A compaction may cut its output between two
      entries of one user key, so a file may begin with the user key the one before it ends with. */
  ghost predicate Ordered(files: seq<File>) {
    forall i, j :: 0 <= i < j < |files| ==> Precedes(files[i].largest, files[j].smallest)
  }

  /** The files are in order and no user key can lie in two of them. */
  ghost predicate Disjoint(files: seq<File>) {
    forall i, j :: 0 <= i < j < |files| ==> files[i].largest.user < files[j].smallest.user
  }

  /** The order in which a level lists its files: by smallest key, then by number. */
  predicate FileBefore(f: File, g: File) {
    Less(f.smallest, g.smallest) || (f.smallest == g.smallest && f.number < g.number)
  }

  ghost predicate Listed(files: seq<File>) {
    forall i, j :: 0 <= i < j < |files| ==> FileBefore(files[i], files[j])
  }

  ghost predicate GoodFiles(files: seq<File>) {
    forall f :: f in files ==> GoodFile(f)
  }

  /** Level 0: of two files that share a user key, the one with the larger number is newer. */
  ghost predicate NewestByNumber(files: seq<File>) {
    forall f, g {:trigger f in files, g in files} :: f in files && g in files && f.number > g.number ==> Newer(f.entries, g.entries)
  }

  ghost predicate DistinctNumbers(files: seq<File>) {
    forall f, g {:trigger f in files, g in files} :: f in files && g in files && f.number == g.number ==> f == g
  }

  /** Every entry of the files above is newer than those below of its user key. */
  ghost predicate NewerLevel(above: seq<File>, below: seq<File>) {
    forall f, g {:trigger f in above, g in below} :: f in above && g in below ==> Newer(f.entries, g.entries) && f.number != g.number
  }

  /** What every version satisfies, whatever has been compacted: well-formed files, listed in
      order, on a sorted level one behind the other. */
  ghost predicate Formed(levels: Levels) {
    && |levels| == NUM_LEVELS
    && (forall l :: 0 <= l < NUM_LEVELS ==> GoodFiles(levels[l]) && Listed(levels[l]) && DistinctNumbers(levels[l]))
    && (forall l :: 1 <= l < NUM_LEVELS ==> Ordered(levels[l]))
    && NewestByNumber(levels[0])
  }

  /** And what a search relies on besides: a level is newer than those below it. */
  ghost predicate LevelsOk(levels: Levels) {
    Formed(levels) && forall l, m {:trigger NewerLevel(levels[l], levels[m])} ::
      0 <= l < m < NUM_LEVELS ==> NewerLevel(levels[l], levels[m])
  }

  ghost predicate Stored(levels: Levels, e: Entry) {
    exists l, f {:trigger f in levels[l], e in f.entries} :: 0 <= l < |levels| && f in levels[l] && e in f.entries
  }

  ghost function StoredIn(levels: Levels): iset<Entry> {
    iset e | Stored(levels, e)
  }

  /** The user ranges of the file and of [low, high] meet; None is unbounded. */
  predicate Meets(f: File, low: Option<UserKey>, high: Option<UserKey>) {
    !(low.Some? && low.value > f.largest.user) && !(high.Some? && high.value < f.smallest.user)
  }

  /** The index of the first file whose largest key is at or after `key`, or |files|. */
  function FirstFile(files: seq<File>, key: IKey): (n: nat)
    ensures n <= |files|
    ensures forall i :: 0 <= i < n ==> Less(files[i].largest, key)
    ensures n < |files| ==> !Less(files[n].largest, key)
  {
    if files == [] || !Less(files[0].largest, key) then 0
    else
      var n := FirstFile(files[1..], key);
      assert forall i :: 0 < i < 1 + n ==> files[i] == files[1..][i - 1];
      1 + n
  }

  /** The files' largest keys ascend: enough for the binary search. */
  ghost predicate LargestAscend(files: seq<File>) {
    forall i, j :: 0 <= i < j < |files| ==> Less(files[i].largest, files[j].largest)
  }

  /** Binary search over the largest keys. */
  method FindFile(files: seq<File>, key: IKey) returns (index: nat)
    requires LargestAscend(files)
    ensures index == FirstFile(files, key)
  {
    var left, right := 0, |files|;
    while left < right
      invariant 0 <= left <= right <= |files|
      invariant left > 0 ==> Less(files[left - 1].largest, key)
      invariant right < |files| ==> !Less(files[right].largest, key)
    {
      var mid := (left + right) / 2;
      if Less(files[mid].largest, key) {
        left := mid + 1;
      } else {
        right := mid;
      }
    }
    assert forall i :: 0 <= i < left - 1 ==> Less(files[i].largest, files[left - 1].largest);
    index := right;
  }

  lemma OrderedAscend(files: seq<File>)
    requires GoodFiles(files) && Ordered(files)
    ensures LargestAscend(files)
  {
    forall i, j | 0 <= i < j < |files|
      ensures Less(files[i].largest, files[j].largest)
    {
      RangesAscend(files, i);
    }
  }

  lemma RangesAscend(files: seq<File>, m: nat)
    requires GoodFiles(files) && Ordered(files) && m < |files|
    ensures forall i :: 0 <= i < m ==> Precedes(files[i].largest, files[m].smallest) && !Less(files[m].largest, files[m].smallest)
    ensures forall i :: m < i < |files| ==> Precedes(files[m].largest, files[i].smallest) && !Less(files[i].largest, files[i].smallest)
  {
    forall i | 0 <= i < |files|
      ensures !Less(files[i].largest, files[i].smallest)
    {
      assert files[i] in files;
      EntryInRange(files[i], files[i].entries[0]);
    }
  }

  method SomeFileOverlapsRange(disjointSorted: bool, files: seq<File>, small: Option<UserKey>, large: Option<UserKey>)
    returns (overlap: bool)
    requires GoodFiles(files)
    requires disjointSorted ==> Ordered(files)
    ensures overlap <==> exists f :: f in files && Meets(f, small, large)
  {
    if !disjointSorted {
      for i := 0 to |files|
        invariant forall j :: 0 <= j < i ==> !Meets(files[j], small, large)
      {
        if Meets(files[i], small, large) {
          assert files[i] in files;
          return true;
        }
      }
      return false;
    }
    var index := 0;
    OrderedAscend(files);
    if small.Some? {
      index := FindFile(files, SeekKey(small.value, MAX_SEQUENCE));
      forall i | 0 <= i < |files|
        ensures Less(files[i].largest, SeekKey(small.value, MAX_SEQUENCE)) <==> files[i].largest.user < small.value
      {
        assert files[i] in files;
        assert files[i].entries[|files[i].entries| - 1] in files[i].entries;
      }
    }
    if index >= |files| {
      return false;
    }
    RangesAscend(files, index);
    overlap := !(large.Some? && large.value < files[index].smallest.user);
    assert files[index] in files;
  }

  /** The files of a list that meet the range, in order. */
  function Meeting(files: seq<File>, low: Option<UserKey>, high: Option<UserKey>): (r: seq<File>)
    ensures forall f :: f in r <==> f in files && Meets(f, low, high)
    ensures |r| <= |files|
  {
    if files == [] then []
    else
      var rest := Meeting(files[..|files| - 1], low, high);
      var last := files[|files| - 1];
      if Meets(last, low, high) then rest + [last] else rest
  }

  lemma {:induction false} MeetingListed(files: seq<File>, low: Option<UserKey>, high: Option<UserKey>)
    requires Listed(files)
    ensures Listed(Meeting(files, low, high))
  {
    if files != [] {
      var front := files[..|files| - 1];
      MeetingListed(front, low, high);
      var r := Meeting(front, low, high);
      forall i | 0 <= i < |r|
        ensures FileBefore(r[i], files[|files| - 1])
      {
        assert r[i] in front;
      }
    }
  }

  /** [low, high] widened from [begin, end]. */
  predicate Widens(begin: Option<UserKey>, end: Option<UserKey>, low: Option<UserKey>, high: Option<UserKey>) {
    && (begin.Some? <==> low.Some?) && (end.Some? <==> high.Some?)
    && (low.Some? ==> low.value <= begin.value) && (high.Some? ==> end.value <= high.value)
  }

  /** A file that reaches past neither end of the range. */
  predicate Inside(f: File, low: Option<UserKey>, high: Option<UserKey>) {
    (low.Some? ==> low.value <= f.smallest.user) && (high.Some? ==> f.largest.user <= high.value)
  }

  /** Every file that meets the range lies inside it. */
  ghost predicate Closed(files: seq<File>, low: Option<UserKey>, high: Option<UserKey>) {
    forall f :: f in files && Meets(f, low, high) ==> Inside(f, low, high)
  }

  /** How many file bounds lie outside the range: what each restart lowers. */
  ghost function Outside(files: seq<File>, low: Option<UserKey>, high: Option<UserKey>): nat {
    if files == [] then 0
    else (if low.Some? && files[0].smallest.user < low.value then 1 else 0) +
         (if high.Some? && high.value < files[0].largest.user then 1 else 0) + Outside(files[1..], low, high)
  }

  lemma {:induction false} OutsideShrinks(files: seq<File>, begin: Option<UserKey>, end: Option<UserKey>,
                                          low: Option<UserKey>, high: Option<UserKey>)
    requires Widens(begin, end, low, high)
    ensures Outside(files, low, high) <= Outside(files, begin, end)
    ensures (exists f :: f in files &&
              ((low.Some? && low.value <= f.smallest.user < begin.value) ||
               (high.Some? && end.value < f.largest.user <= high.value)))
            ==> Outside(files, low, high) < Outside(files, begin, end)
  {
    if files != [] {
      OutsideShrinks(files[1..], begin, end, low, high);
      assert files == [files[0]] + files[1..];
    }
  }

  /** What file i adds to the files that meet a range, and to what keeps inside it. */
  lemma {:induction false} FileAdded(files: seq<File>, i: nat, low: Option<UserKey>, high: Option<UserKey>)
    requires i < |files|
    ensures Meeting(files[..i + 1], low, high)
         == Meeting(files[..i], low, high) + if Meets(files[i], low, high) then [files[i]] else []
    ensures Closed(files[..i], low, high) && (Meets(files[i], low, high) ==> Inside(files[i], low, high))
            ==> Closed(files[..i + 1], low, high)
  {
    assert files[..i + 1] == files[..i] + [files[i]] && files[..i + 1][..i] == files[..i];
  }

  /** Every widening that no file crosses is at least as wide as this one. */
  ghost predicate Least(files: seq<File>, begin: Option<UserKey>, end: Option<UserKey>,
                        low: Option<UserKey>, high: Option<UserKey>)
  {
    forall l, h {:trigger Closed(files, l, h), Widens(begin, end, l, h)} ::
      Closed(files, l, h) && Widens(begin, end, l, h) ==> Widens(low, high, l, h)
  }

  /** A file that meets the range must lie inside any such widening. */
  lemma LeastGrows(files: seq<File>, begin: Option<UserKey>, end: Option<UserKey>,
                   low: Option<UserKey>, high: Option<UserKey>, f: File)
    requires Least(files, begin, end, low, high) && f in files && Meets(f, low, high)
    ensures low.Some? && f.smallest.user < low.value ==> Least(files, begin, end, Some(f.smallest.user), high)
    ensures high.Some? && high.value < f.largest.user ==> Least(files, begin, end, low, Some(f.largest.user))
  {
    forall l, h | Closed(files, l, h) && Widens(begin, end, l, h)
      ensures (l.Some? ==> l.value <= f.smallest.user) && (h.Some? ==> f.largest.user <= h.value)
    {
      assert Widens(low, high, l, h);
      assert Meets(f, l, h);
    }
  }

  /** Growing the range to cover a file that crosses one of its ends lowers the number of bounds
      outside and goes no further than it must. */
  lemma {:induction false} GrowsDown(files: seq<File>, begin: Option<UserKey>, end: Option<UserKey>,
                                     low: Option<UserKey>, high: Option<UserKey>, f: File)
    requires Widens(begin, end, low, high) && Least(files, begin, end, low, high) && f in files && Meets(f, low, high)
    requires low.Some? && f.smallest.user < low.value
    ensures Widens(begin, end, Some(f.smallest.user), high) && Least(files, begin, end, Some(f.smallest.user), high)
    ensures Outside(files, Some(f.smallest.user), high) < Outside(files, low, high)
  {
    LeastGrows(files, begin, end, low, high, f);
    OutsideShrinks(files, low, high, Some(f.smallest.user), high);
  }

  lemma {:induction false} GrowsUp(files: seq<File>, begin: Option<UserKey>, end: Option<UserKey>,
                                   low: Option<UserKey>, high: Option<UserKey>, f: File)
    requires Widens(begin, end, low, high) && Least(files, begin, end, low, high) && f in files && Meets(f, low, high)
    requires high.Some? && high.value < f.largest.user
    ensures Widens(begin, end, low, Some(f.largest.user)) && Least(files, begin, end, low, Some(f.largest.user))
    ensures Outside(files, low, Some(f.largest.user)) < Outside(files, low, high)
  {
    LeastGrows(files, begin, end, low, high, f);
    OutsideShrinks(files, low, high, low, Some(f.largest.user));
  }

  /** Widens the range to cover a file that crosses its lower or else its upper end. */
  method CoverFile(ghost files: seq<File>, ghost begin: Option<UserKey>, ghost end: Option<UserKey>,
                   low: Option<UserKey>, high: Option<UserKey>, f: File)
    returns (grew: bool, low': Option<UserKey>, high': Option<UserKey>)
    requires Widens(begin, end, low, high) && Least(files, begin, end, low, high) && f in files && Meets(f, low, high)
    ensures Widens(begin, end, low', high') && Least(files, begin, end, low', high')
    ensures grew ==> Outside(files, low', high') < Outside(files, low, high)
    ensures !grew ==> low' == low && high' == high && Inside(f, low, high)
  {
    grew, low', high' := false, low, high;
    if low.Some? && f.smallest.user < low.value {
      GrowsDown(files, begin, end, low, high, f);
      grew, low' := true, Some(f.smallest.user);
    } else if high.Some? && f.largest.user > high.value {
      GrowsUp(files, begin, end, low, high, f);
      grew, high' := true, Some(f.largest.user);
    }
  }

  /** Collects the files of a level that meet a range.  On level 0 the range grows to cover
      each file taken, and the search starts again each time it grows.  The range it ends with is
      handed back too. */
  method GetOverlappingInputs(level: nat, files: seq<File>, begin: Option<UserKey>, end: Option<UserKey>)
    returns (inputs: seq<File>, low: Option<UserKey>, high: Option<UserKey>)
    ensures inputs == Meeting(files, low, high)
    ensures Widens(begin, end, low, high)
    ensures level > 0 ==> low == begin && high == end
    ensures level == 0 ==> Closed(files, low, high)
    ensures Least(files, begin, end, low, high)
  {
    var userBegin, userEnd := begin, end;
    inputs := [];
    var i := 0;
    while i < |files|
      invariant Gathered(level, files, begin, end, i, inputs, userBegin, userEnd)
      decreases Outside(files, userBegin, userEnd), |files| - i
    {
      var f := files[i];
      ghost var at, before := i, inputs;
      i := i + 1;
      if userBegin.Some? && f.largest.user < userBegin.value {
        GatherNext(level, files, begin, end, at, before, userBegin, userEnd, inputs);
      } else if userEnd.Some? && f.smallest.user > userEnd.value {
        GatherNext(level, files, begin, end, at, before, userBegin, userEnd, inputs);
      } else {
        inputs := inputs + [f];
        var grew := false;
        if level == 0 {
          grew, userBegin, userEnd := CoverFile(files, begin, end, userBegin, userEnd, f);
        }
        if grew {
          inputs := [];
          i := 0;
        } else {
          GatherNext(level, files, begin, end, at, before, userBegin, userEnd, inputs);
        }
      }
    }
    assert files[..i] == files;
    low, high := userBegin, userEnd;
  }

  /** What has been gathered from the first i files. */
  ghost predicate Gathered(level: nat, files: seq<File>, begin: Option<UserKey>, end: Option<UserKey>,
                           i: nat, inputs: seq<File>, low: Option<UserKey>, high: Option<UserKey>)
  {
    && i <= |files| && inputs == Meeting(files[..i], low, high)
    && Widens(begin, end, low, high) && Least(files, begin, end, low, high)
    && (if level > 0 then low == begin && high == end else Closed(files[..i], low, high))
  }

  lemma GatherNext(level: nat, files: seq<File>, begin: Option<UserKey>, end: Option<UserKey>,
                   i: nat, inputs: seq<File>, low: Option<UserKey>, high: Option<UserKey>, inputs': seq<File>)
    requires Gathered(level, files, begin, end, i, inputs, low, high) && i < |files|
    requires level == 0 && Meets(files[i], low, high) ==> Inside(files[i], low, high)
    requires inputs' == inputs + if Meets(files[i], low, high) then [files[i]] else []
    ensures Gathered(level, files, begin, end, i + 1, inputs', low, high)
  {
    FileAdded(files, i, low, high);
  }

  /** The entry a search of one sorted run gives for user key k at snapshot s. */
  function SearchRun(es: seq<Entry>, k: UserKey, s: nat): Option<Entry> {
    var n := LowerBound(es, SeekKey(k, s));
    if n < |es| && es[n].key.user == k then Some(es[n]) else None
  }

  lemma SearchRunIsNewest(es: seq<Entry>, k: UserKey, s: nat)
    requires Sorted(es)
    ensures match SearchRun(es, k, s)
            case Some(e) => Newest(Entries(es), k, s, e)
            case None => forall x :: x in es && x.key.user == k ==> x.key.sequence > s
  {
    var n := LowerBound(es, SeekKey(k, s));
    forall x | x in es && x.key.user == k && x.key.sequence <= s
      ensures n < |es| && es[n].key.user == k && x.key.sequence <= es[n].key.sequence
    {
      var i :| 0 <= i < |es| && es[i] == x;
      assert n < i ==> Less(es[n].key, es[i].key);
    }
  }

  predicate Covers(f: File, k: UserKey) {
    f.smallest.user <= k <= f.largest.user
  }

  /** Inserts into a list of files sorted by descending number. */
  function InsertNewest(f: File, sorted: seq<File>): (r: seq<File>)
    ensures forall g :: g in r <==> g == f || g in sorted
    ensures (forall i, j :: 0 <= i < j < |sorted| ==> sorted[i].number >= sorted[j].number)
              ==> forall i, j :: 0 <= i < j < |r| ==> r[i].number >= r[j].number
  {
    if sorted == [] || f.number >= sorted[0].number then [f] + sorted
    else
      var rest := InsertNewest(f, sorted[1..]);
      assert forall j :: 0 <= j < |rest| ==> rest[j] in rest;
      assert sorted == [sorted[0]] + sorted[1..];
      [sorted[0]] + rest
  }

  function SortNewestFirst(files: seq<File>): (r: seq<File>)
    ensures forall g :: g in r <==> g in files
    ensures forall i, j :: 0 <= i < j < |r| ==> r[i].number >= r[j].number
  {
    if files == [] then [] else InsertNewest(files[0], SortNewestFirst(files[1..]))
  }

  function Covering(files: seq<File>, k: UserKey): (r: seq<File>)
    ensures forall f :: f in r <==> f in files && Covers(f, k)
  {
    if files == [] then []
    else (if Covers(files[0], k) then [files[0]] else []) + Covering(files[1..], k)
  }

  /** Searches the files in the order given, stopping at the first that answers. */
  function SearchInOrder(files: seq<File>, k: UserKey, s: nat): Option<Entry> {
    if files == [] then None
    else
      var r := SearchRun(files[0].entries, k, s);
      if r.Some? then r else SearchInOrder(files[1..], k, s)
  }

  /** What a level answers: on level 0 every covering file from the newest on, elsewhere the one
      file the index finds. */
  function SearchLevel(level: nat, files: seq<File>, k: UserKey, s: nat): Option<Entry> {
    if level == 0 then SearchInOrder(SortNewestFirst(Covering(files, k)), k, s)
    else
      var i := FirstFile(files, SeekKey(k, s));
      if i < |files| && files[i].smallest.user <= k then SearchRun(files[i].entries, k, s) else None
  }

  /** The search from `level` down: the first level that answers decides. */
  function SearchLevels(levels: Levels, k: UserKey, s: nat, level: nat): Option<Entry>
    decreases |levels| - level
  {
    if level >= |levels| then None
    else
      var r := SearchLevel(level, levels[level], k, s);
      if r.Some? then r else SearchLevels(levels, k, s, level + 1)
  }

  lemma {:induction false} CoveringNext(files: seq<File>, i: nat, tmp: seq<File>, k: UserKey)
    requires i < |files|
    ensures tmp + Covering(files[i..], k)
         == (if Covers(files[i], k) then tmp + [files[i]] else tmp) + Covering(files[i + 1..], k)
  {
    assert files[i..][1..] == files[i + 1..];
  }

  /** The files of one level a read must look into, in the order it must. */
  method FilesToSearch(level: nat, files: seq<File>, k: UserKey, s: nat) returns (tmp: seq<File>)
    requires level > 0 ==> LargestAscend(files)
    ensures SearchInOrder(tmp, k, s) == SearchLevel(level, files, k, s)
  {
    tmp := [];
    if level == 0 {
      for i := 0 to |files|
        invariant tmp + Covering(files[i..], k) == Covering(files, k)
      {
        CoveringNext(files, i, tmp, k);
        if Covers(files[i], k) {
          tmp := tmp + [files[i]];
        }
      }
      assert tmp == Covering(files, k);
      tmp := SortNewestFirst(tmp);
    } else {
      var index := FindFile(files, SeekKey(k, s));
      if index < |files| && k >= files[index].smallest.user {
        tmp := [files[index]];
      }
    }
  }

  /** Reads user key k at snapshot s, level by level. */
  method Get(levels: Levels, k: UserKey, s: nat) returns (r: Option<Entry>)
    requires |levels| == NUM_LEVELS
    requires forall l :: 1 <= l < NUM_LEVELS ==> LargestAscend(levels[l])
    ensures r == SearchLevels(levels, k, s, 0)
  {
    for level := 0 to NUM_LEVELS
      invariant SearchLevels(levels, k, s, 0) == SearchLevels(levels, k, s, level)
    {
      var files := FilesToSearch(level, levels[level], k, s);
      for i := 0 to |files|
        invariant SearchInOrder(files, k, s) == SearchInOrder(files[i..], k, s)
      {
        r := SearchRun(files[i].entries, k, s);
        if r.Some? {
          return;
        }
      }
    }
    r := None;
  }

  /** e answers for k at s among the files: one of them holds it, and none a newer one. */
  ghost predicate AnswersIn(files: seq<File>, k: UserKey, s: nat, e: Entry) {
    && (exists f :: f in files && e in f.entries)
    && e.key.user == k && e.key.sequence <= s
    && forall f, x {:trigger f in files, x in f.entries} :: f in files && x in f.entries && x.key.user == k && x.key.sequence <= s
         ==> x.key.sequence <= e.key.sequence
  }

  /** The file holds no entry of k readable at s. */
  ghost predicate LacksIn(f: File, k: UserKey, s: nat) {
    forall x {:trigger x in f.entries} :: x in f.entries && x.key.user == k ==> x.key.sequence > s
  }

  ghost predicate Lacks(files: seq<File>, k: UserKey, s: nat) {
    forall f :: f in files ==> LacksIn(f, k, s)
  }

  /** Files from the highest number down, of which the higher ones are newer. */
  ghost predicate FromNewest(order: seq<File>) {
    && GoodFiles(order) && NewestByNumber(order) && DistinctNumbers(order)
    && forall a, b :: 0 <= a < b < |order| ==> order[a].number >= order[b].number
  }

  lemma RestFromNewest(order: seq<File>)
    requires FromNewest(order) && order != []
    ensures FromNewest(order[1..])
  {
    assert forall f :: f in order[1..] ==> f in order;
  }

  /** The search of level 0 in order of number finds the newest entry. */
  lemma {:induction false} NewestFileAnswers(order: seq<File>, k: UserKey, s: nat)
    requires FromNewest(order)
    ensures match SearchInOrder(order, k, s)
            case Some(e) => AnswersIn(order, k, s, e)
            case None => Lacks(order, k, s)
  {
    if order != [] {
      var first, rest := order[0], order[1..];
      assert first in order && order == [first] + rest;
      RestFromNewest(order);
      SearchRunIsNewest(first.entries, k, s);
      NewestFileAnswers(rest, k, s);
      if SearchRun(first.entries, k, s).Some? {
        FirstIsNewest(order, k, s, SearchRun(first.entries, k, s).value);
      }
    }
  }

  lemma FirstIsNewest(order: seq<File>, k: UserKey, s: nat, e: Entry)
    requires order != [] && FromNewest(order) && Newest(Entries(order[0].entries), k, s, e)
    ensures AnswersIn(order, k, s, e)
  {
    var first := order[0];
    assert first in order;
    forall f, x | f in order && x in f.entries && x.key.user == k && x.key.sequence <= s
      ensures x.key.sequence <= e.key.sequence
    {
      if f != first { assert Newer(first.entries, f.entries); }
    }
  }

  lemma LevelZeroAnswers(files: seq<File>, k: UserKey, s: nat)
    requires GoodFiles(files) && NewestByNumber(files) && DistinctNumbers(files)
    ensures match SearchLevel(0, files, k, s)
            case Some(e) => AnswersIn(files, k, s, e)
            case None => Lacks(files, k, s)
  {
    var order := SortNewestFirst(Covering(files, k));
    assert forall f :: f in order <==> f in files && Covers(f, k);
    NewestFileAnswers(order, k, s);
    forall f, x | f in files && x in f.entries && x.key.user == k
      ensures f in order
    {
      EntryInRange(f, x);
    }
  }

  /** An entry a sorted level has for k at s is one of the file the index finds, or that file ends
      with a newer one. */
  lemma FirstFileIsNewest(files: seq<File>, j: nat, k: UserKey, s: nat, x: Entry) returns (z: Entry)
    requires GoodFiles(files) && Ordered(files) && j < |files|
    requires x in files[j].entries && x.key.user == k && x.key.sequence <= s
    ensures var i := FirstFile(files, SeekKey(k, s));
            i < |files| && files[i].smallest.user <= k && z in files[i].entries
    ensures z.key.user == k && x.key.sequence <= z.key.sequence <= s
  {
    var i := FirstFile(files, SeekKey(k, s));
    assert files[j] in files;
    EntryInRange(files[j], x);
    assert files[i] in files;
    z := x;
    if i < j {
      z := files[i].entries[|files[i].entries| - 1];
      EntryInRange(files[i], z);
      assert Precedes(files[i].largest, files[j].smallest);
    }
  }

  /** On a sorted level the file the index finds holds the answer, if there is one. */
  lemma SortedLevelAnswers(level: nat, files: seq<File>, k: UserKey, s: nat)
    requires level > 0 && GoodFiles(files) && Ordered(files)
    ensures match SearchLevel(level, files, k, s)
            case Some(e) => AnswersIn(files, k, s, e)
            case None => Lacks(files, k, s)
  {
    var index := FirstFile(files, SeekKey(k, s));
    if index < |files| {
      assert files[index] in files;
      SearchRunIsNewest(files[index].entries, k, s);
    }
    forall f, x | f in files && x in f.entries && x.key.user == k && x.key.sequence <= s
      ensures SearchLevel(level, files, k, s).Some? && x.key.sequence <= SearchLevel(level, files, k, s).value.key.sequence
    {
      var j :| 0 <= j < |files| && files[j] == f;
      var z := FirstFileIsNewest(files, j, k, s, x);
    }
  }

  lemma LevelAnswers(levels: Levels, level: nat, k: UserKey, s: nat)
    requires Formed(levels) && level < NUM_LEVELS
    ensures match SearchLevel(level, levels[level], k, s)
            case Some(e) => AnswersIn(levels[level], k, s, e)
            case None => Lacks(levels[level], k, s)
  {
    if level == 0 { LevelZeroAnswers(levels[0], k, s); }
    else { SortedLevelAnswers(level, levels[level], k, s); }
  }

  lemma NothingStored(levels: Levels, k: UserKey, s: nat)
    requires forall l :: 0 <= l < |levels| ==> Lacks(levels[l], k, s)
    ensures forall x :: Stored(levels, x) && x.key.user == k ==> x.key.sequence > s
  {
    forall x | Stored(levels, x) && x.key.user == k
      ensures x.key.sequence > s
    {
      var l, g :| 0 <= l < |levels| && g in levels[l] && x in g.entries;
      assert Lacks(levels[l], k, s) && LacksIn(g, k, s);
    }
  }

  /** The search finds the newest readable entry of the whole tree. */
  lemma {:induction false} SearchFindsNewest(levels: Levels, k: UserKey, s: nat, level: nat)
    requires LevelsOk(levels) && level <= |levels|
    requires forall l :: 0 <= l < level ==> Lacks(levels[l], k, s)
    ensures match SearchLevels(levels, k, s, level)
            case Some(e) => Newest(StoredIn(levels), k, s, e)
            case None => forall x :: Stored(levels, x) && x.key.user == k ==> x.key.sequence > s
    decreases |levels| - level
  {
    if level < |levels| {
      LevelAnswers(levels, level, k, s);
      var r := SearchLevel(level, levels[level], k, s);
      if r.Some? { FirstAnswerIsNewest(levels, level, k, s, r.value); }
      else { SearchFindsNewest(levels, k, s, level + 1); }
    } else {
      NothingStored(levels, k, s);
    }
  }

  lemma FirstAnswerIsNewest(levels: Levels, level: nat, k: UserKey, s: nat, e: Entry)
    requires level < |levels|
    requires forall m :: level < m < |levels| ==> NewerLevel(levels[level], levels[m])
    requires forall l :: 0 <= l < level ==> Lacks(levels[l], k, s)
    requires AnswersIn(levels[level], k, s, e)
    ensures Newest(StoredIn(levels), k, s, e)
  {
    forall l, g | 0 <= l < level && g in levels[l]
      ensures LacksIn(g, k, s)
    {
      assert Lacks(levels[l], k, s);
    }
    forall x | Stored(levels, x) && x.key.user == k && x.key.sequence <= s
      ensures x.key.sequence <= e.key.sequence
    {
      var l, g :| 0 <= l < |levels| && g in levels[l] && x in g.entries;
      var f :| f in levels[level] && e in f.entries;
      if level < l { assert NewerLevel(levels[level], levels[l]); }
    }
  }

  /** None of the files meets the range. */
  ghost predicate Clear(files: seq<File>, small: UserKey, large: UserKey) {
    forall f :: f in files ==> !Meets(f, Some(small), Some(large))
  }

  /** A table may go down from a level: no file of the next one meets it, and not too much of the
      one after that does. */
  ghost predicate Passes(levels: Levels, level: nat, small: UserKey, large: UserKey)
    requires level + 1 < NUM_LEVELS == |levels|
  {
    && Clear(levels[level + 1], small, large)
    && (level + 2 < NUM_LEVELS ==>
          TotalFileSize(Meeting(levels[level + 2], Some(small), Some(large))) <= MAX_GRANDPARENT_OVERLAP)
  }

  method MayPass(levels: Levels, level: nat, small: UserKey, large: UserKey) returns (pass: bool)
    requires Formed(levels) && level + 1 < NUM_LEVELS
    ensures pass <==> Passes(levels, level, small, large)
  {
    var overlap := SomeFileOverlapsRange(true, levels[level + 1], Some(small), Some(large));
    if overlap {
      return false;
    }
    if level + 2 < NUM_LEVELS {
      var overlaps, low, high := GetOverlappingInputs(level + 2, levels[level + 2], Some(small), Some(large));
      if TotalFileSize(overlaps) > MAX_GRANDPARENT_OVERLAP {
        return false;
      }
    }
    pass := true;
  }

  /** The level a flushed memtable goes to: as far down as it may, and past level 0 only while
      nothing it meets is passed. */
  ghost predicate LandsOn(levels: Levels, small: UserKey, large: UserKey, level: nat)
    requires |levels| == NUM_LEVELS
  {
    && level <= MAX_MEM_COMPACT_LEVEL
    && (forall l :: 0 <= l < level ==> Passes(levels, l, small, large))
    && (level < MAX_MEM_COMPACT_LEVEL ==> !Clear(levels[0], small, large) || !Passes(levels, level, small, large))
    && (level > 0 ==> forall l :: 0 <= l <= level ==> Clear(levels[l], small, large))
  }

  /** That is one level and no other. */
  lemma LandsOnOne(levels: Levels, small: UserKey, large: UserKey, l: nat, m: nat)
    requires |levels| == NUM_LEVELS && LandsOn(levels, small, large, l) && LandsOn(levels, small, large, m)
    ensures l == m
  {
  }

  method PickLevelForMemTableOutput(levels: Levels, small: UserKey, large: UserKey) returns (level: nat)
    requires Formed(levels)
    ensures LandsOn(levels, small, large, level)
  {
    level := 0;
    var overlap := SomeFileOverlapsRange(false, levels[0], Some(small), Some(large));
    if !overlap {
      while level < MAX_MEM_COMPACT_LEVEL
        invariant level <= MAX_MEM_COMPACT_LEVEL
        invariant forall l :: 0 <= l < level ==> Passes(levels, l, small, large)
        invariant forall l :: 0 <= l <= level ==> Clear(levels[l], small, large)
      {
        var pass := MayPass(levels, level, small, large);
        if !pass {
          break;
        }
        level := level + 1;
      }
    }
  }

  function TotalFileSize(files: seq<File>): nat {
    if files == [] then 0 else files[0].size + TotalFileSize(files[1..])
  }
}
