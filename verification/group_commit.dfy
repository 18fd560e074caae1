/** Group commit: concurrent writers queue up, the front one commits a group for all of them. */
module GroupCommit {
  import opened Format
  import opened Batches
  import opened Recovery

  /** One call of `Write`; no batch stands for a request to switch memtables. */
  datatype Request = Request(batch: Option<seq<Update>>, sync: bool) {
    function Updates(): seq<Update> {
      if batch.Some? then batch.value else []
    }

    /** The size of the batch's bytes, header included. */
    function ByteSize(): nat {
      BATCH_HEADER + |Body(Updates())|
    }
  }

  const MEGABYTE: nat := 0x10_0000
  const SMALL: nat := 0x2_0000

  function MaxSize(first: Request): nat {
    if first.ByteSize() <= SMALL then first.ByteSize() + SMALL else MEGABYTE
  }

  /** The bytes of the batches of the first n requests. */
  function SizeOf(queue: seq<Request>, n: nat): nat
    requires n <= |queue|
  {
    if n == 0 then 0 else SizeOf(queue, n - 1) + if queue[n - 1].batch.Some? then queue[n - 1].ByteSize() else 0
  }

  /** Request i may ride with the front one: no sync write under a leader that does not sync,
      and the group does not grow too large. */
  predicate MayJoin(queue: seq<Request>, i: nat)
    requires 0 < i < |queue|
  {
    (queue[i].sync ==> queue[0].sync) && (queue[i].batch.Some? ==> SizeOf(queue, i + 1) <= MaxSize(queue[0]))
  }

  predicate AllMayJoin(queue: seq<Request>, n: nat)
    requires n <= |queue|
  {
    forall i :: 0 < i < n ==> MayJoin(queue, i)
  }

  /** n requests form the group: all of them may join, and the next one may not. */
  predicate IsGroup(queue: seq<Request>, n: nat) {
    0 < n <= |queue| && AllMayJoin(queue, n) && (n < |queue| ==> !MayJoin(queue, n))
  }

  /** The updates of n requests from the given one on. */
  function Combined(requests: seq<Request>, first: nat, n: nat): seq<Update>
    requires first + n <= |requests|
  {
    if n == 0 then [] else Combined(requests, first, n - 1) + requests[first + n - 1].Updates()
  }

  /** One round of the loop over the queue: request n joins the group or ends it. */
  method JoinGroup(queue: seq<Request>, n: nat, size: nat, maxSize: nat, result: seq<Update>)
    returns (joins: bool, size': nat, result': seq<Update>)
    requires 0 < n < |queue| && size == SizeOf(queue, n) && maxSize == MaxSize(queue[0])
    requires result == Combined(queue, 0, n)
    ensures joins <==> MayJoin(queue, n)
    ensures joins ==> size' == SizeOf(queue, n + 1) && result' == Combined(queue, 0, n + 1)
  {
    var w := queue[n];
    size', result' := size, result;
    if w.sync && !queue[0].sync {
      return false, size', result';
    }
    if w.batch.Some? {
      size' := size' + w.ByteSize();
      if size' > maxSize {
        return false, size', result';
      }
      result' := result' + w.batch.value;
    } else {
      assert result + [] == result;
    }
    joins := true;
  }

  /** Which requests at the front of the queue are committed together. */
  method BuildBatchGroup(queue: seq<Request>) returns (n: nat, result: seq<Update>)
    requires queue != [] && queue[0].batch.Some?
    ensures IsGroup(queue, n) && result == Combined(queue, 0, n)
  {
    var first := queue[0];
    result := first.batch.value;
    var size := first.ByteSize();
    var maxSize := if size <= SMALL then size + SMALL else MEGABYTE;
    n := 1;
    assert Combined(queue, 0, 0) == [] && SizeOf(queue, 0) == 0;
    assert Combined(queue, 0, 1) == [] + result && SizeOf(queue, 1) == size;
    var joins := true;
    while n < |queue| && joins
      invariant 1 <= n <= |queue| && size == SizeOf(queue, n) && maxSize == MaxSize(first)
      invariant AllMayJoin(queue, n)
      invariant result == Combined(queue, 0, n)
      invariant !joins ==> n < |queue| && !MayJoin(queue, n)
      decreases |queue| - n, joins
    {
      var size', result';
      joins, size', result' := JoinGroup(queue, n, size, maxSize, result);
      if joins {
        n, size, result := n + 1, size', result';
      }
    }
  }

  /** A writer's thread: asleep, woken up, committing a group, or back from its call. */
  datatype Phase = Waiting | Signalled | Leading | Returned(ok: bool)

  /** Where the leader stands; n writers at the front of the queue are committed together. */
  datatype Stage =
    | NoLeader
    | Making
    | Logging(n: nat, group: Group)
    | Syncing(n: nat, group: Group)
    | Inserting(n: nat, group: Group)
    | Finishing(n: nat, last: nat, ok: bool, syncError: bool)

  /** Where a batch was put: behind which sequence number, in which log record. */
  datatype Place = Place(before: nat, record: nat)

  /** Writers are known by the order of their arrival.  `requests` and `placed` are history
      variables: all calls so far, and
      where the batches applied to the memtable were put. */
  datatype State = State(requests: seq<Request>, writers: seq<nat>, phase: seq<Phase>, done: map<nat, bool>,
                         stage: Stage, lastSequence: nat, log: seq<Group>, synced: nat, mem: seq<Numbered>,
                         bgError: bool, placed: map<nat, Place>)

  /** How many writers have left the queue. */
  function Popped(st: State): int {
    |st.requests| - |st.writers|
  }

  ghost predicate Initial(st: State) {
    st == State([], [], [], map[], NoLeader, 0, [], 0, [], false, map[])
  }

  /** A writer joins the queue; it leads at once when it is alone. */
  ghost predicate EnterStep(st: State, st': State, r: Request) {
    var leads := st.writers == [];
    st' == st.(requests := st.requests + [r], writers := st.writers + [|st.requests|],
               phase := st.phase + [if leads then Leading else Waiting],
               stage := if leads then Making else st.stage)
  }

  /** A writer wakes up, with or without a signal: it returns if it was served, leads if it is
      at the front, and goes back to sleep otherwise. */
  ghost predicate WakeStep(st: State, st': State, id: nat) {
    id < |st.phase| && (st.phase[id] == Waiting || st.phase[id] == Signalled) &&
    st' == if id in st.done then st.(phase := st.phase[id := Returned(st.done[id])])
           else if st.writers != [] && st.writers[0] == id then st.(phase := st.phase[id := Leading], stage := Making)
           else st.(phase := st.phase[id := Waiting])
  }

  /** The requests in the queue. */
  function Queue(st: State): seq<Request>
    requires 0 <= Popped(st)
  {
    st.requests[Popped(st)..]
  }

  /** There is room, or not; a background error fails every write that follows. */
  ghost predicate RoomStep(st: State, st': State, ok: bool, n: nat) {
    st.stage.Making? && st.writers != [] && 0 <= Popped(st) && (st.bgError ==> !ok) &&
    if ok && Queue(st)[0].batch.Some? then
      IsGroup(Queue(st), n) &&
      st' == st.(stage := Logging(n, Group(st.lastSequence, Combined(Queue(st), 0, n))))
    else
      st' == st.(stage := Finishing(1, st.lastSequence, ok, false))
  }

  /** The group goes to the log. */
  ghost predicate LogStep(st: State, st': State, ok: bool) {
    st.stage.Logging? && 0 <= Popped(st) && Queue(st) != [] &&
    var Logging(n, group) := st.stage;
    st' == if !ok then st.(stage := Finishing(n, group.Last(), false, false))
           else st.(log := st.log + [group],
                    stage := if Queue(st)[0].sync then Syncing(n, group) else Inserting(n, group))
  }

  ghost predicate SyncStep(st: State, st': State, ok: bool) {
    st.stage.Syncing? &&
    var Syncing(n, group) := st.stage;
    st' == if ok then st.(synced := |st.log|, stage := Inserting(n, group))
           else st.(stage := Finishing(n, group.Last(), false, true))
  }

  /** Where the batches of the n writers from `first` on go. */
  function Places(requests: seq<Request>, first: nat, n: nat, before: nat, record: nat): map<nat, Place>
    requires first + n <= |requests|
  {
    map i: nat | first <= i < first + n && requests[i].batch.Some? ::
      Place(before + |Combined(requests, first, i - first)|, record)
  }

  /** The group is applied to the memtable. */
  ghost predicate InsertStep(st: State, st': State) {
    st.stage.Inserting? && 0 <= Popped(st) && st.stage.n <= |st.writers| && 0 < |st.log| &&
    var Inserting(n, group) := st.stage;
    st' == st.(mem := st.mem + group.Numbers(),
               placed := st.placed + Places(st.requests, Popped(st), n, group.before, |st.log| - 1),
               stage := Finishing(n, group.Last(), true, false))
  }

  /** What finishing a group does to writer i: the leader returns, the others of the group are
      woken up, and so is the new front. */
  function PhaseAfter(phase: seq<Phase>, popped: nat, n: nat, ok: bool, i: nat): Phase
    requires i < |phase|
  {
    if i == popped then Returned(ok) else if popped < i <= popped + n then Signalled else phase[i]
  }

  ghost predicate FinishStep(st: State, st': State) {
    st.stage.Finishing? && 0 <= Popped(st) && 0 < st.stage.n <= |st.writers| &&
    var Finishing(n, last, ok, syncError) := st.stage;
    st' == st.(lastSequence := last, bgError := st.bgError || syncError, stage := NoLeader,
               writers := st.writers[n..],
               phase := seq(|st.phase|, i requires 0 <= i < |st.phase| => PhaseAfter(st.phase, Popped(st), n, ok, i)),
               done := map i | 0 <= i < Popped(st) + n && (i in st.done || Popped(st) <= i) ::
                         if Popped(st) <= i then ok else st.done[i])
  }

  /** The writers i, i + 1, ... of a queue of that length. */
  ghost predicate InArrivalOrder(writers: seq<nat>, first: nat) {
    forall i :: 0 <= i < |writers| ==> writers[i] == first + i
  }

  /** The end of `Write`: the leader takes its group off the queue, tells every other member how
      it went and wakes it, and wakes the new front. */
  method ServeGroup(queue: seq<nat>, phases: seq<Phase>, results: map<nat, bool>, self: nat, lastWriter: nat, ok: bool)
    returns (writers: seq<nat>, phase: seq<Phase>, done: map<nat, bool>)
    requires InArrivalOrder(queue, self) && self <= lastWriter < self + |queue| <= |phases|
    ensures var n := lastWriter + 1 - self;
            && writers == queue[n..] && |phase| == |phases|
            && (forall i :: 0 <= i < |phases| && i < self + |queue| ==> phase[i] == PhaseAfter(phases, self, n, ok, i))
            && (forall i :: self + |queue| <= i < |phases| ==> phase[i] == phases[i])
            && (forall i :: i in done <==> i in results || self <= i <= lastWriter)
            && (forall i :: i in done ==> done[i] == if self <= i <= lastWriter then ok else results[i])
  {
    writers, phase, done := queue, phases, results;
    var more := true;
    ghost var served := 0;
    while more
      invariant served <= lastWriter + 1 - self && writers == queue[served..] && |phase| == |phases|
      invariant more <==> served < lastWriter + 1 - self
      invariant forall i :: 0 <= i < |phases| ==>
                  phase[i] == if i == self && served > 0 then Returned(ok) else if self < i < self + served then Signalled else phases[i]
      invariant forall i :: i in done <==> i in results || self <= i < self + served
      invariant forall i :: i in done ==> done[i] == if self <= i < self + served then ok else results[i]
      decreases lastWriter + 1 - self - served
    {
      var ready := writers[0];
      writers := writers[1..];
      done := done[ready := ok];
      phase := phase[ready := if ready != self then Signalled else Returned(ok)];
      served := served + 1;
      more := ready != lastWriter;
    }
    if writers != [] {
      phase := phase[writers[0] := Signalled];
    }
  }

  datatype Action =
    | Enter(r: Request) | Wake(id: nat) | Room(roomOk: bool, n: nat) | Log(logOk: bool) | Sync(syncOk: bool)
    | Insert | Finish

  ghost predicate Takes(st: State, st': State, a: Action) {
    match a
    case Enter(r) => EnterStep(st, st', r)
    case Wake(id) => WakeStep(st, st', id)
    case Room(ok, n) => RoomStep(st, st', ok, n)
    case Log(ok) => LogStep(st, st', ok)
    case Sync(ok) => SyncStep(st, st', ok)
    case Insert => InsertStep(st, st')
    case Finish => FinishStep(st, st')
  }

  /** The queue holds the writers that have not left it, in order of arrival. */
  ghost predicate QueueOk(st: State) {
    && |st.writers| <= |st.requests| == |st.phase|
    && (forall i :: 0 <= i < |st.writers| ==> st.writers[i] == Popped(st) + i)
    && (forall id :: id in st.done <==> 0 <= id < Popped(st))
  }

  /** Every writer's thread is where it should be; above all, the front writer is never asleep
      without a signal when nobody leads. */
  ghost predicate PhasesOk(st: State)
    requires QueueOk(st)
  {
    && (forall id :: 0 <= id < Popped(st) ==> st.phase[id] == Signalled || st.phase[id] == Returned(st.done[id]))
    && (forall id :: Popped(st) <= id < |st.phase| ==>
          (if id == Popped(st) && st.stage != NoLeader then st.phase[id] == Leading
           else st.phase[id] == Waiting || st.phase[id] == Signalled))
    && (st.stage == NoLeader && st.writers != [] ==> st.phase[Popped(st)] == Signalled)
    && (st.stage != NoLeader ==> st.writers != [])
  }

  /** The stage fits the writers it was built for. */
  ghost predicate StageOk(st: State)
    requires QueueOk(st)
  {
    match st.stage
    case NoLeader => true
    case Making => true
    case Logging(n, group) => GroupOk(st, n, group)
    case Syncing(n, group) => GroupOk(st, n, group) && 0 < |st.log| && st.log[|st.log| - 1] == group
    case Inserting(n, group) =>
      && GroupOk(st, n, group) && 0 < |st.log| && st.log[|st.log| - 1] == group
      && (Queue(st)[0].sync ==> st.synced == |st.log|)
    case Finishing(n, last, ok, _) => 0 < n <= |st.writers| && st.lastSequence <= last
  }

  ghost predicate GroupOk(st: State, n: nat, group: Group)
    requires QueueOk(st)
  {
    && 0 < n <= |st.writers|
    && group == Group(st.lastSequence, Combined(st.requests, Popped(st), n))
    && (forall i :: Popped(st) <= i < Popped(st) + n && st.requests[i].sync ==> st.requests[Popped(st)].sync)
  }

  /** Writer id's batch is in the memtable or will be when its leader has said so. */
  predicate Served(st: State, id: nat) {
    || (id in st.done && st.done[id])
    || (st.stage.Finishing? && st.stage.ok && Popped(st) <= id < Popped(st) + st.stage.n)
  }

  /** The highest number the memtable may hold. */
  function Applied(st: State): nat {
    if st.stage.Finishing? then st.stage.last else st.lastSequence
  }

  /** The highest number the log may hold. */
  function Highest(st: State): nat {
    match st.stage
    case Finishing(_, last, _, _) => last
    case Syncing(_, group) => group.Last()
    case Inserting(_, group) => group.Last()
    case _ => st.lastSequence
  }

  /** A placed batch is in the log under the numbers it has in the memtable, and synced if asked. */
  ghost predicate PlaceOk(requests: seq<Request>, log: seq<Group>, synced: nat, id: nat, p: Place) {
    && id < |requests| && requests[id].batch.Some? && p.record < |log|
    && (requests[id].sync ==> p.record < synced)
    && LiesIn(log[p.record], p.before, requests[id].Updates())
  }

  /** The group holds us right behind number `before`. */
  ghost predicate LiesIn(g: Group, before: nat, us: seq<Update>) {
    g.before <= before && before + |us| <= g.Last() && g.updates[before - g.before..][..|us|] == us
  }

  /** The last number of a placed batch. */
  function LastPlaced(requests: seq<Request>, id: nat, p: Place): nat {
    p.before + if id < |requests| then |requests[id].Updates()| else 0
  }

  /** Of two requests placed, the later one comes behind the other. */
  ghost predicate InOrder(requests: seq<Request>, places: map<nat, Place>) {
    forall a, b :: a in places && b in places && a < b ==> LastPlaced(requests, a, places[a]) <= places[b].before
  }

  /** The batches applied lie on disjoint ranges of numbers, in order of arrival. */
  ghost predicate PlacedInOrder(requests: seq<Request>, log: seq<Group>, synced: nat, placed: map<nat, Place>,
                                high: nat) {
    && (forall id :: id in placed ==>
          PlaceOk(requests, log, synced, id, placed[id]) && LastPlaced(requests, id, placed[id]) <= high)
    && InOrder(requests, placed)
  }

  /** Applied are the batches of exactly the writers served. */
  ghost predicate PlacedAreServed(st: State) {
    forall id: nat :: id in st.placed <==> Served(st, id) && id < |st.requests| && st.requests[id].batch.Some?
  }

  /** What the memtable holds when the placed batches of the first n writers were applied to it,
      each of them once, in order of arrival. */
  function Laid(placed: map<nat, Place>, requests: seq<Request>, n: nat): seq<Numbered>
    requires n <= |requests|
  {
    if n == 0 then []
    else
      Laid(placed, requests, n - 1)
      + if n - 1 in placed then Number(placed[n - 1].before + 1, requests[n - 1].Updates()) else []
  }

  /** Log records hold disjoint ranges of numbers, in ascending order. */
  ghost predicate LogOk(log: seq<Group>, synced: nat, high: nat) {
    && synced <= |log|
    && (forall i, j :: 0 <= i < j < |log| ==> log[i].Last() <= log[j].before)
    && (forall i :: 0 <= i < |log| ==> log[i].Last() <= high)
  }

  ghost predicate Inv(st: State) {
    && QueueOk(st) && PhasesOk(st) && StageOk(st) && LogOk(st.log, st.synced, Highest(st))
    && PlacedInOrder(st.requests, st.log, st.synced, st.placed, Applied(st)) && PlacedAreServed(st)
    && st.mem == Laid(st.placed, st.requests, |st.requests|)
  }
}
