/** One writer and any number of readers on a skip list, one pointer read or written a step. */
module SkipListRuns {
  import opened Format
  import opened SkipLists

  datatype Query = Ceiling(target: int) | Floor(target: int) | Last

  /** A reader: searching, or done.  `begun` and `ended` are history variables: the keys the
      list held when the search began and at its last read. */
  datatype Reader =
    | Searching(query: Query, node: Node, level: nat, begun: set<int>)
    | Ceil(query: Query, found: Option<int>, begun: set<int>, ended: set<int>)
    | Back(query: Query, last: Node, begun: set<int>, ended: set<int>)

  /** The writer, between two of its pointer accesses. */
  datatype Writer =
    | Idle
    | Finding(key: int, node: Node, level: nat, prev: map<nat, Node>)
    | Found(key: int, prev: map<nat, Node>)
    | Linking(key: int, height: nat, i: nat, prev: map<nat, Node>)
    | Publishing(key: int, height: nat, i: nat, prev: map<nat, Node>)

  /** `linked` is a history variable: the keys published on each level. */
  datatype State = State(next: Tower, maxHeight: nat, writer: Writer, readers: map<nat, Reader>, linked: KeySets)

  ghost predicate Initial(st: State) {
    && st.next == seq(MAX_HEIGHT, i => map[Head := None]) && st.maxHeight == 1
    && st.writer == Idle && st.readers == map[] && st.linked == seq(MAX_HEIGHT, i => {})
  }

  /** Whether a search reading r moves on along its level. */
  predicate Moves(query: Query, r: Option<int>) {
    r.Some? && (query.Last? || r.value < query.target)
  }

  /** A reader begins: it reads the height and starts from the head. */
  ghost predicate BeginStep(st: State, st': State, id: nat, query: Query) {
    id !in st.readers && 1 <= st.maxHeight &&
    st' == st.(readers := st.readers[id := Searching(query, Head, st.maxHeight - 1, st.linked[0])])
  }

  /** A reader reads one pointer, and moves on, goes down a level, or is done. */
  ghost predicate ReadStep(st: State, st': State, id: nat) {
    && id in st.readers && st.readers[id].Searching?
    && var r := st.readers[id];
    && r.level < MAX_HEIGHT && r.node in st.next[r.level]
    && var p := st.next[r.level][r.node];
    st' == st.(readers := st.readers[id :=
      if Moves(r.query, p) then r.(node := At(p.value))
      else if r.level > 0 then r.(level := r.level - 1)
      else if r.query.Ceiling? then Ceil(r.query, p, r.begun, st.linked[0])
      else Back(r.query, r.node, r.begun, st.linked[0])])
  }

  /** The writer starts to look for the place of a key the list does not hold. */
  ghost predicate InsertStep(st: State, st': State, key: int) {
    st.writer.Idle? && 1 <= st.maxHeight && key !in st.linked[0] &&
    st' == st.(writer := Finding(key, Head, st.maxHeight - 1, map[]))
  }

  ghost predicate FindStep(st: State, st': State) {
    && st.writer.Finding?
    && var w := st.writer;
    && w.level < MAX_HEIGHT && w.node in st.next[w.level]
    && var p := st.next[w.level][w.node];
    st' == st.(writer :=
      if p.Some? && p.value < w.key then w.(node := At(p.value))
      else if w.level > 0 then Finding(w.key, w.node, w.level - 1, w.prev[w.level := w.node])
      else Found(w.key, w.prev[0 := w.node]))
  }

  /** On the levels the list did not use so far the new node comes right behind the head. */
  function RaisedPrev(prev: map<nat, Node>, low: nat, high: nat): (r: map<nat, Node>)
    ensures forall i :: low <= i < high ==> i in r && r[i] == Head
    ensures forall i :: i in prev && !(low <= i < high) ==> i in r && r[i] == prev[i]
  {
    if high <= low then prev else RaisedPrev(prev, low, high - 1)[high - 1 := Head]
  }

  /** The writer picks a height, and raises the list's when it is larger. */
  ghost predicate RaiseStep(st: State, st': State, height: nat) {
    st.writer.Found? && 1 <= height <= MAX_HEIGHT &&
    st' == st.(maxHeight := if height > st.maxHeight then height else st.maxHeight,
               writer := Linking(st.writer.key, height, 0, RaisedPrev(st.writer.prev, st.maxHeight, height)))
  }

  /** The new node's own pointer on level i, before any pointer leads there. */
  ghost predicate PrepareStep(st: State, st': State) {
    && st.writer.Linking?
    && var w := st.writer;
    && w.i < MAX_HEIGHT && w.i in w.prev && w.prev[w.i] in st.next[w.i]
    && st' == st.(next := st.next[w.i := st.next[w.i][At(w.key) := st.next[w.i][w.prev[w.i]]]],
                  writer := Publishing(w.key, w.height, w.i, w.prev))
  }

  /** The pointer that makes the new node part of level i. */
  ghost predicate PublishStep(st: State, st': State) {
    && st.writer.Publishing?
    && var w := st.writer;
    && w.i < MAX_HEIGHT && w.i in w.prev
    && st' == st.(next := st.next[w.i := st.next[w.i][w.prev[w.i] := Some(w.key)]],
                  linked := st.linked[w.i := st.linked[w.i] + {w.key}],
                  writer := if w.i + 1 == w.height then Idle else Linking(w.key, w.height, w.i + 1, w.prev))
  }

  datatype Action = Begin(id: nat, query: Query) | Read(id: nat) | Insert(key: int) | Find | Raise(height: nat) | Prepare | Publish

  ghost predicate Takes(st: State, st': State, a: Action) {
    match a
    case Begin(id, query) => BeginStep(st, st', id, query)
    case Read(id) => ReadStep(st, st', id)
    case Insert(key) => InsertStep(st, st', key)
    case Find => FindStep(st, st')
    case Raise(height) => RaiseStep(st, st', height)
    case Prepare => PrepareStep(st, st')
    case Publish => PublishStep(st, st')
  }

  /** What holds of a search at any moment. */
  ghost predicate ReaderOk(r: Reader, linked: KeySets)
  {
    && r.begun <= linked[0]
    && match r
       case Searching(query, node, level, _) =>
         level < MAX_HEIGHT && On(node, linked[level]) && (query.Last? || Behind(node, query.target))
       case Ceil(query, found, begun, ended) =>
         query.Ceiling? && begun <= ended && ended <= linked[0] && IsCeiling(ended, query.target, found)
       case Back(query, last, begun, ended) =>
         begun <= ended && ended <= linked[0] &&
         match query {
           case Floor(target) => IsFloor(ended, target, last)
           case Last => IsLast(ended, last)
           case Ceiling(_) => false
         }
  }

  ghost predicate PrevOk(prev: map<nat, Node>, linked: KeySets, key: int, low: nat, high: nat)
    requires high <= MAX_HEIGHT
  {
    forall i :: low <= i < high ==> i in prev && Precedes(linked[i], prev[i], key)
  }

  /** The key is on the levels below i and on no other. */
  ghost predicate LinkedBelow(linked: KeySets, key: int, i: nat)
  {
    forall j :: 0 <= j < MAX_HEIGHT ==> (key in linked[j] <==> j < i)
  }

  ghost predicate WriterOk(w: Writer, st: State)
    requires st.maxHeight <= MAX_HEIGHT
  {
    match w
    case Idle => true
    case Finding(key, node, level, prev) =>
      && level < st.maxHeight && On(node, st.linked[level]) && Behind(node, key)
      && PrevOk(prev, st.linked, key, level + 1, st.maxHeight) && LinkedBelow(st.linked, key, 0)
    case Found(key, prev) =>
      PrevOk(prev, st.linked, key, 0, st.maxHeight) && LinkedBelow(st.linked, key, 0)
    case Linking(key, height, i, prev) =>
      i < height <= st.maxHeight && PrevOk(prev, st.linked, key, i, height) && LinkedBelow(st.linked, key, i)
    case Publishing(key, height, i, prev) =>
      && i < height <= st.maxHeight && PrevOk(prev, st.linked, key, i, height) && LinkedBelow(st.linked, key, i)
      && At(key) in st.next[i] && prev[i] in st.next[i] && st.next[i][At(key)] == st.next[i][prev[i]]
  }

  ghost predicate Inv(st: State) {
    && WellLinked(st.next, st.linked, st.maxHeight)
    && WriterOk(st.writer, st)
    && forall id :: id in st.readers ==> ReaderOk(st.readers[id], st.linked)
  }

  lemma InitialInv(st: State)
    requires Initial(st)
    ensures Inv(st)
  {
  }

  /** Levels only ever gain keys. */
  ghost predicate Grows(linked: KeySets, linked': KeySets) {
    forall i :: 0 <= i < MAX_HEIGHT ==> linked[i] <= linked'[i]
  }

  lemma ReadersGoOn(st: State, linked': KeySets)
    requires Inv(st) && Grows(st.linked, linked')
    ensures forall id :: id in st.readers ==> ReaderOk(st.readers[id], linked')
  {
    forall id | id in st.readers
      ensures ReaderOk(st.readers[id], linked')
    {
      assert ReaderOk(st.readers[id], st.linked);
    }
  }

  lemma ReadKeeps(st: State, st': State, id: nat)
    requires Inv(st) && ReadStep(st, st', id)
    ensures Inv(st')
  {
    var r := st.readers[id];
    assert ReaderOk(r, st.linked);
    assert IsNext(st.linked[r.level], r.node, st.next[r.level][r.node]);
  }

  lemma FindKeeps(st: State, st': State)
    requires Inv(st) && FindStep(st, st')
    ensures Inv(st')
  {
    var w := st.writer;
    assert IsNext(st.linked[w.level], w.node, st.next[w.level][w.node]);
  }

  lemma RaiseKeeps(st: State, st': State, height: nat)
    requires Inv(st) && RaiseStep(st, st', height)
    ensures Inv(st')
  {
  }

  lemma PrepareKeeps(st: State, st': State)
    requires Inv(st) && PrepareStep(st, st')
    ensures Inv(st')
  {
    var w := st.writer;
    HiddenPointer(st.next[w.i], st.linked[w.i], w.key, st.next[w.i][w.prev[w.i]]);
  }

  /** Publishing is the second half of `LinkChains`. */
  lemma PublishChains(next: Pointers, s: set<int>, p: Node, key: int)
    requires Chains(next, s) && Precedes(s, p, key) && key !in s
    requires At(key) in next && p in next && next[At(key)] == next[p]
    ensures Chains(next[p := Some(key)], s + {key})
  {
    assert next[At(key) := next[p]] == next;
    LinkChains(next, s, p, key, next[p := Some(key)]);
  }

  lemma PublishKeeps(st: State, st': State)
    requires Inv(st) && PublishStep(st, st')
    ensures Inv(st') && Grows(st.linked, st'.linked)
  {
    var w := st.writer;
    PublishChains(st.next[w.i], st.linked[w.i], w.prev[w.i], w.key);
    ReadersGoOn(st, st'.linked);
  }

  /** Every step of the writer or a reader keeps the list well linked and every search on course. */
  lemma StepKeeps(st: State, st': State, a: Action)
    requires Inv(st) && Takes(st, st', a)
    ensures Inv(st') && Grows(st.linked, st'.linked)
  {
    match a
    case Begin(_, _) =>
    case Read(id) => ReadKeeps(st, st', id);
    case Insert(key) =>
    case Find => FindKeeps(st, st');
    case Raise(height) => RaiseKeeps(st, st', height);
    case Prepare => PrepareKeeps(st, st');
    case Publish => PublishKeeps(st, st');
  }

  ghost predicate Run(states: seq<State>, actions: seq<Action>) {
    && |states| == |actions| + 1 && Initial(states[0])
    && forall i :: 0 <= i < |actions| ==> Takes(states[i], states[i + 1], actions[i])
  }

  lemma NextKeeps(states: seq<State>, actions: seq<Action>, i: nat)
    requires Run(states, actions) && i < |actions| && Inv(states[i])
    ensures Inv(states[i + 1]) && Grows(states[i].linked, states[i + 1].linked)
  {
    StepKeeps(states[i], states[i + 1], actions[i]);
  }

  lemma {:induction false} RunKeeps(states: seq<State>, actions: seq<Action>, i: nat)
    requires Run(states, actions) && i < |states|
    ensures Inv(states[i])
  {
    if i == 0 {
      InitialInv(states[0]);
    } else {
      RunKeeps(states, actions, i - 1);
      NextKeeps(states, actions, i - 1);
    }
  }

  lemma {:induction false} RunGrows(states: seq<State>, actions: seq<Action>, i: nat, j: nat)
    requires Run(states, actions) && i <= j < |states|
    ensures Inv(states[i]) && Inv(states[j]) && Grows(states[i].linked, states[j].linked)
  {
    if i == j {
      RunKeeps(states, actions, i);
    } else {
      RunGrows(states, actions, i, j - 1);
      NextKeeps(states, actions, j - 1);
      GrowsOn(states[i].linked, states[j - 1].linked, states[j].linked);
    }
  }

  lemma GrowsOn(linked: KeySets, linked': KeySets, linked'': KeySets)
    requires Grows(linked, linked') && Grows(linked', linked'')
    ensures Grows(linked, linked'')
  {
  }

  /** In every run, at every moment, each level chains its keys in ascending order and is part of
      the level below. */
  lemma LevelsStaySorted(states: seq<State>, actions: seq<Action>, i: nat)
    requires Run(states, actions) && i < |states|
    ensures forall l :: 0 <= l < MAX_HEIGHT ==> Chains(states[i].next[l], states[i].linked[l])
    ensures forall l, m :: 0 <= l < m < MAX_HEIGHT ==> states[i].linked[m] <= states[i].linked[l]
  {
    RunKeeps(states, actions, i);
  }

  /** A search for the first key at or after a target, begun in state i and over by state j,
      answers the least such key of the list at its last read; so a key that was in the list
      when the search began is never missed, whatever was inserted meanwhile. */
  lemma SearchMissesNothing(states: seq<State>, actions: seq<Action>, i: nat, j: nat, id: nat, target: int, key: int)
    requires Run(states, actions) && i < j < |states| && actions[i] == Begin(id, Ceiling(target))
    requires id in states[j].readers && states[j].readers[id].Ceil?
    requires key in states[i].linked[0] && key >= target
    ensures var r := states[j].readers[id];
            && IsCeiling(r.ended, target, r.found)
            && r.found.Some? && target <= r.found.value <= key && r.found.value in states[j].linked[0]
  {
    RunKeeps(states, actions, j);
    ReaderKept(states, actions, i, j, id);
  }

  /** The same for a search for the last node before a target, which the iterator's `Prev` is: the
      greatest key below the target at its last read, and no key that was there is missed. */
  lemma FloorMissesNothing(states: seq<State>, actions: seq<Action>, i: nat, j: nat, id: nat, target: int, key: int)
    requires Run(states, actions) && i < j < |states| && actions[i] == Begin(id, Floor(target))
    requires id in states[j].readers && states[j].readers[id].Back?
    requires key in states[i].linked[0] && key < target
    ensures var r := states[j].readers[id];
            && IsFloor(r.ended, target, r.last)
            && r.last.At? && key <= r.last.key < target && r.last.key in states[j].linked[0]
  {
    RunKeeps(states, actions, j);
    ReaderKept(states, actions, i, j, id);
  }

  /** And for the last node of all: it is not before any key that was there when the search began. */
  lemma LastMissesNothing(states: seq<State>, actions: seq<Action>, i: nat, j: nat, id: nat, key: int)
    requires Run(states, actions) && i < j < |states| && actions[i] == Begin(id, Last)
    requires id in states[j].readers && states[j].readers[id].Back?
    requires key in states[i].linked[0]
    ensures var r := states[j].readers[id];
            && IsLast(r.ended, r.last)
            && r.last.At? && key <= r.last.key && r.last.key in states[j].linked[0]
  {
    RunKeeps(states, actions, j);
    ReaderKept(states, actions, i, j, id);
  }

  /** What a search is after and what the list held when it began do not change. */
  lemma ReaderStays(st: State, st': State, a: Action, id: nat)
    requires Takes(st, st', a) && id in st.readers
    ensures id in st'.readers
    ensures st'.readers[id].query == st.readers[id].query && st'.readers[id].begun == st.readers[id].begun
  {
  }

  lemma {:induction false} ReaderKept(states: seq<State>, actions: seq<Action>, i: nat, j: nat, id: nat)
    requires Run(states, actions) && i < j < |states| && actions[i].Begin? && actions[i].id == id
    ensures id in states[j].readers
    ensures states[j].readers[id].query == actions[i].query && states[j].readers[id].begun == states[i].linked[0]
  {
    if j == i + 1 {
      assert BeginStep(states[i], states[j], id, actions[i].query);
    } else {
      ReaderKept(states, actions, i, j - 1, id);
      ReaderStays(states[j - 1], states[j], actions[j - 1], id);
    }
  }

  /** A key is published on level 0 once and for all by the first publishing step of its insertion. */
  lemma InsertedForGood(states: seq<State>, actions: seq<Action>, i: nat, j: nat)
    requires Run(states, actions) && i < j < |states|
    requires actions[i].Publish? && states[i].writer.Publishing?
    ensures states[i].writer.key in states[j].linked[0]
  {
    RunKeeps(states, actions, i);
    StepKeeps(states[i], states[i + 1], actions[i]);
    RunGrows(states, actions, i + 1, j);
    var w := states[i].writer;
    assert LinkedBelow(states[i].linked, w.key, w.i);
    if w.i == 0 {
      assert w.key in states[i + 1].linked[0];
    }
  }

  /** On a list that stands still every read of a search brings it nearer to its end. */
  lemma SearchComesToAnEnd(st: State, st': State, id: nat)
    requires Inv(st) && ReadStep(st, st', id)
    ensures var r, r' := st.readers[id], st'.readers[id];
            || !r'.Searching? || r'.level < r.level
            || (r'.level == r.level && |Ahead(st.linked[r.level], r'.node)| < |Ahead(st.linked[r.level], r.node)|)
  {
    var r := st.readers[id];
    assert ReaderOk(r, st.linked);
    var p := st.next[r.level][r.node];
    assert IsNext(st.linked[r.level], r.node, p);
    if Moves(r.query, p) { MovesAhead(st.linked[r.level], r.node, p.value); }
  }
}
