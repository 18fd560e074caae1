/** What group commit keeps at every step, and what that means for whole runs. */
module GroupCommitRuns {
  import opened Format
  import opened Coding
  import opened Batches
  import opened LogFile
  import opened LogCrash
  import opened Recovery
  import opened GroupCommit

  lemma InitialInv(st: State)
    requires Initial(st)
    ensures Inv(st)
  {
  }

  lemma {:induction false} CombinedPrefix(a: seq<Request>, b: seq<Request>, first: nat, n: nat)
    requires first + n <= |a| && a <= b
    ensures Combined(a, first, n) == Combined(b, first, n)
  {
    if n > 0 { CombinedPrefix(a, b, first, n - 1); }
  }

  /** The queue's requests combine as they do in the list of all requests. */
  lemma {:induction false} CombinedFrom(requests: seq<Request>, first: nat, n: nat)
    requires first + n <= |requests|
    ensures Combined(requests[first..], 0, n) == Combined(requests, first, n)
  {
    if n > 0 { CombinedFrom(requests, first, n - 1); }
  }

  /** Requests that arrive later do not change what was laid. */
  lemma {:induction false} LaidPrefix(placed: map<nat, Place>, a: seq<Request>, b: seq<Request>, n: nat)
    requires a <= b && n <= |a|
    ensures Laid(placed, a, n) == Laid(placed, b, n)
  {
    if n > 0 { LaidPrefix(placed, a, b, n - 1); }
  }

  /** Nothing is laid for writers that were not placed. */
  lemma {:induction false} LaidStill(placed: map<nat, Place>, requests: seq<Request>, lo: nat, hi: nat)
    requires lo <= hi <= |requests| && forall id :: id in placed ==> id < lo || hi <= id
    ensures Laid(placed, requests, lo) == Laid(placed, requests, hi)
  {
    if lo < hi {
      LaidStill(placed, requests, lo, hi - 1);
      assert Laid(placed, requests, hi - 1) + [] == Laid(placed, requests, hi - 1);
    }
  }

  lemma {:induction false} LaidAgree(a: map<nat, Place>, b: map<nat, Place>, requests: seq<Request>, n: nat)
    requires n <= |requests| && forall id :: 0 <= id < n ==> (id in a <==> id in b) && (id in a ==> a[id] == b[id])
    ensures Laid(a, requests, n) == Laid(b, requests, n)
  {
    if n > 0 { LaidAgree(a, b, requests, n - 1); }
  }

  lemma MorePlaced(requests: seq<Request>, log: seq<Group>, synced: nat, placed: map<nat, Place>, high: nat,
                   requests': seq<Request>, log': seq<Group>, synced': nat, high': nat)
    requires PlacedInOrder(requests, log, synced, placed, high)
    requires requests <= requests' && log <= log' && synced <= synced' && high <= high'
    ensures PlacedInOrder(requests', log', synced', placed, high')
  {
    forall id | id in placed
      ensures PlaceOk(requests', log', synced', id, placed[id])
      ensures LastPlaced(requests', id, placed[id]) == LastPlaced(requests, id, placed[id])
    {
      assert PlaceOk(requests, log, synced, id, placed[id]);
    }
  }

  /** Nothing of what decides who has been served has changed. */
  lemma SameServed(st: State, st': State)
    requires PlacedAreServed(st) && QueueOk(st) && QueueOk(st') && st'.done == st.done && st'.placed == st.placed
    requires st.requests <= st'.requests && Popped(st') == Popped(st)
    requires st.stage.Finishing? ==> st.stage.n <= |st.writers|
    requires st'.stage == st.stage || !st.stage.Finishing?
    requires st'.stage == st.stage || !st'.stage.Finishing? || !st'.stage.ok ||
             (st'.stage.n == 1 && st.writers != [] && st.requests[Popped(st)].batch.None?)
    ensures PlacedAreServed(st')
  {
    forall id: nat
      ensures id in st'.placed <==> Served(st', id) && id < |st'.requests| && st'.requests[id].batch.Some?
    {
      assert id in st.placed <==> Served(st, id) && id < |st.requests| && st.requests[id].batch.Some?;
    }
  }

  lemma EnterKeepsPlaced(st: State, st': State, r: Request)
    requires Inv(st) && EnterStep(st, st', r)
    requires QueueOk(st') && StageOk(st)
    ensures PlacedInOrder(st'.requests, st'.log, st'.synced, st'.placed, Applied(st')) && PlacedAreServed(st')
    ensures st'.mem == Laid(st'.placed, st'.requests, |st'.requests|)
  {
    var n := |st.requests|;
    MorePlaced(st.requests, st.log, st.synced, st.placed, Applied(st), st'.requests, st.log, st.synced, Applied(st'));
    SameServed(st, st');
    LaidPrefix(st.placed, st.requests, st'.requests, n);
    forall id | id in st.placed
      ensures id < n
    {
      assert PlaceOk(st.requests, st.log, st.synced, id, st.placed[id]);
    }
    LaidStill(st.placed, st'.requests, n, n + 1);
  }

  lemma EnterKeepsPhases(st: State, st': State, r: Request)
    requires QueueOk(st) && PhasesOk(st) && EnterStep(st, st', r)
    ensures QueueOk(st') && PhasesOk(st')
  {
  }

  lemma {:induction false} EnterKeepsStage(st: State, st': State, r: Request)
    requires QueueOk(st) && PhasesOk(st) && StageOk(st) && EnterStep(st, st', r) && QueueOk(st')
    ensures StageOk(st')
  {
    match st.stage
    case Logging(n, group) => CombinedPrefix(st.requests, st'.requests, Popped(st), n);
    case Syncing(n, group) => CombinedPrefix(st.requests, st'.requests, Popped(st), n);
    case Inserting(n, group) => CombinedPrefix(st.requests, st'.requests, Popped(st), n);
    case _ =>
  }

  lemma EnterKeeps(st: State, st': State, r: Request)
    requires Inv(st) && EnterStep(st, st', r)
    ensures Inv(st')
  {
    EnterKeepsPhases(st, st', r);
    EnterKeepsStage(st, st', r);
    EnterKeepsPlaced(st, st', r);
  }

  /** A step of a leader or a writer's thread that leaves log, memtable and queue alone. */
  lemma OnlyControlChanged(st: State, st': State)
    requires Inv(st) && QueueOk(st') && PhasesOk(st') && StageOk(st')
    requires st'.requests == st.requests && st'.writers == st.writers && st'.done == st.done && st'.log == st.log
    requires st'.synced == st.synced && st'.mem == st.mem && st'.placed == st.placed
    requires Highest(st') == Highest(st) && Applied(st') == Applied(st)
    requires st'.stage == st.stage || !st.stage.Finishing?
    requires st'.stage == st.stage || !st'.stage.Finishing? || !st'.stage.ok ||
             (st'.stage.n == 1 && st.writers != [] && st.requests[Popped(st)].batch.None?)
    ensures Inv(st')
  {
    SameServed(st, st');
  }

  lemma WakeKeepsQueue(st: State, st': State, id: nat)
    requires QueueOk(st) && WakeStep(st, st', id)
    ensures QueueOk(st')
  {
  }

  lemma SameStage(st: State, st': State)
    requires QueueOk(st) && StageOk(st) && QueueOk(st') && st'.stage == st.stage && st'.lastSequence == st.lastSequence
    requires st'.requests == st.requests && st'.writers == st.writers && st'.log == st.log && st'.synced == st.synced
    ensures StageOk(st')
  {
  }

  lemma WakeKeepsStage(st: State, st': State, id: nat)
    requires QueueOk(st) && PhasesOk(st) && StageOk(st) && WakeStep(st, st', id) && QueueOk(st')
    ensures StageOk(st')
    ensures st'.stage == st.stage || (st.stage.NoLeader? && st'.stage.Making?)
  {
    if st'.stage == st.stage { SameStage(st, st'); }
  }

  lemma WakeKeepsPhases(st: State, st': State, id: nat)
    requires QueueOk(st) && PhasesOk(st) && WakeStep(st, st', id) && QueueOk(st')
    ensures PhasesOk(st')
  {
    if id !in st.done && st.writers != [] && st.writers[0] == id {
      assert st'.stage == Making && st'.phase == st.phase[id := Leading];
    }
  }

  lemma WakeKeeps(st: State, st': State, id: nat)
    requires Inv(st) && WakeStep(st, st', id)
    ensures Inv(st')
  {
    WakeKeepsQueue(st, st', id);
    WakeKeepsStage(st, st', id);
    WakeKeepsPhases(st, st', id);
    OnlyControlChanged(st, st');
  }

  /** What a leader may go on to once it knows whether there is room. */
  ghost predicate RoomMade(st: State, st': State) {
    && st.stage.Making? && st' == st.(stage := st'.stage)
    && QueueOk(st') && PhasesOk(st') && StageOk(st')
    && (st'.stage.Logging? || st'.stage.Finishing?)
    && (st'.stage.Finishing? ==> st'.stage.last == st.lastSequence && st'.stage.n == 1 && st.writers != [])
    && (st'.stage.Finishing? && st'.stage.ok ==> st.requests[Popped(st)].batch.None?)
  }

  lemma RoomIsMade(st: State, st': State, ok: bool, n: nat)
    requires QueueOk(st) && PhasesOk(st) && RoomStep(st, st', ok, n)
    ensures RoomMade(st, st')
  {
    if st'.stage.Logging? { GroupFits(st, n); }
  }

  lemma RoomKeeps(st: State, st': State)
    requires Inv(st) && RoomMade(st, st')
    ensures Inv(st')
  {
    OnlyControlChanged(st, st');
  }

  /** The group built from the queue is one of the right writers. */
  lemma {:induction false} GroupFits(st: State, n: nat)
    requires QueueOk(st) && st.writers != [] && IsGroup(Queue(st), n)
    ensures GroupOk(st, n, Group(st.lastSequence, Combined(Queue(st), 0, n)))
  {
    var queue := Queue(st);
    CombinedFrom(st.requests, Popped(st), n);
    forall i | Popped(st) <= i < Popped(st) + n && st.requests[i].sync
      ensures st.requests[Popped(st)].sync
    {
      if i > Popped(st) {
        assert MayJoin(queue, i - Popped(st)) && queue[i - Popped(st)] == st.requests[i];
      }
    }
  }

  lemma LogKeepsControl(st: State, st': State, ok: bool)
    requires QueueOk(st) && PhasesOk(st) && StageOk(st) && LogStep(st, st', ok)
    ensures QueueOk(st') && PhasesOk(st') && StageOk(st')
  {
  }

  lemma LogKeeps(st: State, st': State, ok: bool)
    requires Inv(st) && LogStep(st, st', ok)
    ensures Inv(st')
  {
    LogKeepsControl(st, st', ok);
    MorePlaced(st.requests, st.log, st.synced, st.placed, Applied(st), st.requests, st'.log, st.synced, Applied(st'));
    SameServed(st, st');
  }

  lemma SyncKeepsControl(st: State, st': State, ok: bool)
    requires QueueOk(st) && PhasesOk(st) && StageOk(st) && SyncStep(st, st', ok)
    ensures QueueOk(st') && PhasesOk(st') && StageOk(st')
  {
  }

  lemma SyncKeeps(st: State, st': State, ok: bool)
    requires Inv(st) && SyncStep(st, st', ok)
    ensures Inv(st')
  {
    SyncKeepsControl(st, st', ok);
    MorePlaced(st.requests, st.log, st.synced, st.placed, Applied(st), st.requests, st'.log, st'.synced, Applied(st'));
    SameServed(st, st');
  }

  /** Batch i of a group lies in it behind the batches before. */
  lemma {:induction false} BatchLies(requests: seq<Request>, first: nat, n: nat, i: nat)
    requires i < n && first + n <= |requests|
    ensures var all, front, batch := Combined(requests, first, n), Combined(requests, first, i), requests[first + i].Updates();
            |front| + |batch| <= |all| && all[|front|..][..|batch|] == batch
  {
    var front, batch := Combined(requests, first, i), requests[first + i].Updates();
    if i < n - 1 {
      BatchLies(requests, first, n - 1, i);
      SliceOfLonger(Combined(requests, first, n - 1), requests[first + n - 1].Updates(), |front|, |batch|);
    } else {
      assert (front + batch)[|front|..][..|batch|] == batch;
    }
  }

  lemma SliceOfLonger(us: seq<Update>, more: seq<Update>, at: nat, n: nat)
    requires at + n <= |us|
    ensures (us + more)[at..][..n] == us[at..][..n]
  {
  }

  lemma {:induction false} CombinedGrows(requests: seq<Request>, first: nat, i: nat, n: nat)
    requires i <= n && first + n <= |requests|
    ensures |Combined(requests, first, i)| <= |Combined(requests, first, n)|
  {
    if i < n { CombinedGrows(requests, first, i, n - 1); }
  }

  lemma LiesThere(before: nat, us: seq<Update>, at: nat, batch: seq<Update>)
    requires at + |batch| <= |us| && us[at..][..|batch|] == batch
    ensures LiesIn(Group(before, us), before + at, batch)
  {
  }

  lemma {:induction false} PlaceLies(requests: seq<Request>, first: nat, n: nat, before: nat, id: nat)
    requires first <= id < first + n <= |requests|
    ensures LiesIn(Group(before, Combined(requests, first, n)), before + |Combined(requests, first, id - first)|,
                   requests[id].Updates())
  {
    BatchLies(requests, first, n, id - first);
    LiesThere(before, Combined(requests, first, n), |Combined(requests, first, id - first)|, requests[id].Updates());
  }

  /** Each batch of the last group of the log is placed where the group holds it. */
  lemma {:induction false} PlaceIsOk(requests: seq<Request>, log: seq<Group>, synced: nat, first: nat, n: nat,
                                     last: nat, id: nat, p: Place)
    requires first <= id < first + n <= |requests| && 0 < |log| && requests[id].batch.Some?
    requires p == Place(last + |Combined(requests, first, id - first)|, |log| - 1)
    requires log[|log| - 1] == Group(last, Combined(requests, first, n))
    requires forall i :: first <= i < first + n && requests[i].sync ==> synced == |log|
    ensures PlaceOk(requests, log, synced, id, p)
    ensures last <= p.before && LastPlaced(requests, id, p) <= log[|log| - 1].Last()
  {
    PlaceLies(requests, first, n, last, id);
    LyingIsOk(requests, log, synced, id, p);
  }

  lemma LyingIsOk(requests: seq<Request>, log: seq<Group>, synced: nat, id: nat, p: Place)
    requires id < |requests| && requests[id].batch.Some? && p.record < |log|
    requires requests[id].sync ==> synced == |log|
    requires LiesIn(log[p.record], p.before, requests[id].Updates())
    ensures PlaceOk(requests, log, synced, id, p) && LastPlaced(requests, id, p) <= log[p.record].Last()
  {
  }

  lemma {:induction false} BatchesAscend(requests: seq<Request>, first: nat, a: nat, b: nat)
    requires first <= a < b <= |requests|
    ensures |Combined(requests, first, a - first)| + |requests[a].Updates()| <= |Combined(requests, first, b - first)|
  {
    assert Combined(requests, first, a + 1 - first) == Combined(requests, first, a - first) + requests[a].Updates();
    CombinedGrows(requests, first, a + 1 - first, b - first);
  }

  lemma {:induction false} PlacedPair(requests: seq<Request>, first: nat, n: nat, before: nat, record: nat, a: nat,
                                      b: nat)
    requires first + n <= |requests| && a < b
    requires a in Places(requests, first, n, before, record) && b in Places(requests, first, n, before, record)
    ensures LastPlaced(requests, a, Places(requests, first, n, before, record)[a])
         <= Places(requests, first, n, before, record)[b].before
  {
    BatchesAscend(requests, first, a, b);
  }

  lemma PlacesAscend(requests: seq<Request>, first: nat, n: nat, before: nat, record: nat)
    requires first + n <= |requests|
    ensures InOrder(requests, Places(requests, first, n, before, record))
  {
    var places := Places(requests, first, n, before, record);
    forall a, b | a in places && b in places && a < b
      ensures LastPlaced(requests, a, places[a]) <= places[b].before
    {
      PlacedPair(requests, first, n, before, record, a, b);
    }
  }

  lemma NumberJoin(front: seq<Numbered>, before: nat, us: seq<Update>, batch: seq<Update>)
    ensures front + Number(before + 1, us) + Number(before + |us| + 1, batch) == front + Number(before + 1, us + batch)
  {
    NumberSplit(before + 1, us, batch);
  }

  /** Batch id is placed behind those from `first` to it. */
  ghost predicate PlacedBehind(whole: map<nat, Place>, requests: seq<Request>, first: nat, before: nat, id: nat) {
    && first <= id < |requests|
    && (id in whole <==> requests[id].batch.Some?)
    && (id in whole ==> whole[id].before == before + |Combined(requests, first, id - first)|)
  }

  ghost predicate PlacedAlong(whole: map<nat, Place>, requests: seq<Request>, first: nat, n: nat, before: nat) {
    forall id :: first <= id < first + n ==> PlacedBehind(whole, requests, first, before, id)
  }

  lemma {:induction false} GroupIsAlong(placed: map<nat, Place>, requests: seq<Request>, first: nat, n: nat,
                                        before: nat, record: nat)
    requires first + n <= |requests| && forall id :: id in placed ==> id < first
    ensures PlacedAlong(placed + Places(requests, first, n, before, record), requests, first, n, before)
  {
  }

  /** What is laid once the batches of a group have been placed. */
  lemma {:induction false} GroupLaid(whole: map<nat, Place>, requests: seq<Request>, first: nat, n: nat, before: nat,
                                     m: nat)
    requires m <= n && first + n <= |requests| && PlacedAlong(whole, requests, first, n, before)
    ensures Laid(whole, requests, first + m)
         == Laid(whole, requests, first) + Number(before + 1, Combined(requests, first, m))
  {
    if m == 0 {
      assert Laid(whole, requests, first) + [] == Laid(whole, requests, first);
    } else {
      GroupLaid(whole, requests, first, n, before, m - 1);
      assert PlacedBehind(whole, requests, first, before, first + m - 1);
      var us, batch := Combined(requests, first, m - 1), requests[first + m - 1].Updates();
      NumberJoin(Laid(whole, requests, first), before, us, batch);
      LaidStep(whole, requests, first + m - 1, before + |us|, Laid(whole, requests, first) + Number(before + 1, us));
    }
  }

  lemma {:induction false} LaidStep(placed: map<nat, Place>, requests: seq<Request>, id: nat, before: nat,
                                    laid: seq<Numbered>)
    requires id < |requests| && Laid(placed, requests, id) == laid
    requires (id in placed <==> requests[id].batch.Some?) && (id in placed ==> placed[id].before == before)
    ensures Laid(placed, requests, id + 1) == laid + Number(before + 1, requests[id].Updates())
  {
  }

  /** Requests from `first` on, placed at numbers from `mid` up to `high`. */
  ghost predicate PlacesOk(requests: seq<Request>, log: seq<Group>, synced: nat, places: map<nat, Place>, first: nat,
                           mid: nat, high: nat)
  {
    forall id :: id in places ==>
      && first <= id && PlaceOk(requests, log, synced, id, places[id])
      && mid <= places[id].before && LastPlaced(requests, id, places[id]) <= high
  }

  lemma AppendPlaced(requests: seq<Request>, log: seq<Group>, synced: nat, a: map<nat, Place>, b: map<nat, Place>,
                     first: nat, mid: nat, high: nat)
    requires PlacedInOrder(requests, log, synced, a, mid) && mid <= high
    requires forall id :: id in a ==> id < first
    requires PlacesOk(requests, log, synced, b, first, mid, high) && InOrder(requests, b)
    ensures PlacedInOrder(requests, log, synced, a + b, high)
  {
    var both := a + b;
    forall id | id in both
      ensures PlaceOk(requests, log, synced, id, both[id]) && LastPlaced(requests, id, both[id]) <= high
    {
    }
  }

  lemma PlacedLeft(st: State)
    requires QueueOk(st) && PlacedAreServed(st) && st.stage.Inserting?
    ensures forall id :: id in st.placed ==> id < Popped(st)
  {
    forall id | id in st.placed
      ensures id < Popped(st)
    {
      assert Served(st, id);
    }
  }

  lemma {:induction false} PlacesAreOk(requests: seq<Request>, log: seq<Group>, synced: nat, first: nat, n: nat,
                                       last: nat, places: map<nat, Place>)
    requires first + n <= |requests| && 0 < |log| && places == Places(requests, first, n, last, |log| - 1)
    requires log[|log| - 1] == Group(last, Combined(requests, first, n))
    requires forall i :: first <= i < first + n && requests[i].sync ==> synced == |log|
    ensures PlacesOk(requests, log, synced, places, first, last, log[|log| - 1].Last())
  {
    forall id | id in places
      ensures first <= id && PlaceOk(requests, log, synced, id, places[id])
      ensures last <= places[id].before && LastPlaced(requests, id, places[id]) <= log[|log| - 1].Last()
    {
      PlaceIsOk(requests, log, synced, first, n, last, id, places[id]);
    }
  }

  lemma {:induction false} GroupPlaced(requests: seq<Request>, log: seq<Group>, synced: nat, placed: map<nat, Place>,
                                       first: nat, n: nat, last: nat)
    requires PlacedInOrder(requests, log, synced, placed, last) && first + n <= |requests| && 0 < |log|
    requires forall id :: id in placed ==> id < first
    requires log[|log| - 1] == Group(last, Combined(requests, first, n))
    requires forall i :: first <= i < first + n && requests[i].sync ==> synced == |log|
    ensures PlacedInOrder(requests, log, synced, placed + Places(requests, first, n, last, |log| - 1), log[|log| - 1].Last())
  {
    var places, high := Places(requests, first, n, last, |log| - 1), log[|log| - 1].Last();
    PlacesAreOk(requests, log, synced, first, n, last, places);
    PlacesAscend(requests, first, n, last, |log| - 1);
    AppendPlaced(requests, log, synced, placed, places, first, last, high);
  }

  lemma InsertKeepsPlaced(st: State, st': State)
    requires Inv(st) && InsertStep(st, st')
    ensures PlacedInOrder(st'.requests, st'.log, st'.synced, st'.placed, Applied(st'))
  {
    PlacedLeft(st);
    GroupPlaced(st.requests, st.log, st.synced, st.placed, Popped(st), st.stage.n, st.lastSequence);
  }

  lemma InsertKeepsServed(st: State, st': State)
    requires Inv(st) && InsertStep(st, st')
    ensures PlacedAreServed(st')
  {
    PlacedLeft(st);
    forall id: nat
      ensures id in st'.placed <==> Served(st', id) && id < |st.requests| && st.requests[id].batch.Some?
    {
      assert id in st.placed <==> Served(st, id) && id < |st.requests| && st.requests[id].batch.Some?;
    }
  }

  lemma {:induction false} GroupLaidWhole(placed: map<nat, Place>, requests: seq<Request>, first: nat, n: nat,
                                          group: Group, record: nat)
    requires first + n <= |requests| && forall id :: id in placed ==> id < first
    requires group.updates == Combined(requests, first, n)
    ensures Laid(placed + Places(requests, first, n, group.before, record), requests, |requests|)
         == Laid(placed, requests, |requests|) + group.Numbers()
  {
    var whole := placed + Places(requests, first, n, group.before, record);
    LaidStill(placed, requests, first, |requests|);
    LaidAgree(whole, placed, requests, first);
    GroupIsAlong(placed, requests, first, n, group.before, record);
    GroupLaid(whole, requests, first, n, group.before, n);
    LaidStill(whole, requests, first + n, |requests|);
  }

  lemma {:induction false} InsertLays(st: State, st': State, n: nat, group: Group, first: nat)
    requires |st.writers| <= |st.requests| && first == Popped(st) && first + n <= |st.requests| && 0 < |st.log|
    requires forall id :: id in st.placed ==> id < first
    requires group.updates == Combined(st.requests, first, n)
    requires st.mem == Laid(st.placed, st.requests, |st.requests|)
    requires st'.requests == st.requests && st'.mem == st.mem + group.Numbers()
    requires st'.placed == st.placed + Places(st.requests, first, n, group.before, |st.log| - 1)
    ensures st'.mem == Laid(st'.placed, st'.requests, |st'.requests|)
  {
    GroupLaidWhole(st.placed, st.requests, first, n, group, |st.log| - 1);
  }

  lemma InsertKeepsRest(st: State, st': State)
    requires Inv(st) && InsertStep(st, st')
    ensures QueueOk(st') && PhasesOk(st') && StageOk(st') && LogOk(st'.log, st'.synced, Highest(st'))
  {
  }

  lemma InsertKeeps(st: State, st': State)
    requires Inv(st) && InsertStep(st, st')
    ensures Inv(st')
  {
    InsertKeepsPlaced(st, st');
    InsertKeepsServed(st, st');
    InsertKeepsRest(st, st');
    PlacedLeft(st);
    InsertLays(st, st', st.stage.n, st.stage.group, Popped(st));
  }

  lemma FinishKeepsQueue(st: State, st': State)
    requires QueueOk(st) && PhasesOk(st) && StageOk(st) && FinishStep(st, st')
    ensures QueueOk(st') && Popped(st') == Popped(st) + st.stage.n
    ensures forall id :: id in st'.done ==> st'.done[id] == if id < Popped(st) then st.done[id] else st.stage.ok
  {
  }

  lemma FinishKeepsPhases(st: State, st': State)
    requires QueueOk(st) && PhasesOk(st) && StageOk(st) && FinishStep(st, st')
    requires QueueOk(st') && Popped(st') == Popped(st) + st.stage.n
    requires forall id :: id in st'.done ==> st'.done[id] == if id < Popped(st) then st.done[id] else st.stage.ok
    ensures PhasesOk(st')
  {
  }

  lemma FinishKeeps(st: State, st': State)
    requires Inv(st) && FinishStep(st, st')
    ensures Inv(st')
  {
    FinishKeepsQueue(st, st');
    FinishKeepsPhases(st, st');
    forall id: nat
      ensures Served(st, id) <==> Served(st', id)
    {
    }
  }

  /** Every step keeps the invariant. */
  lemma StepKeeps(st: State, st': State, a: Action)
    requires Inv(st) && Takes(st, st', a)
    ensures Inv(st')
  {
    match a
    case Enter(r) => EnterKeeps(st, st', r);
    case Wake(id) => WakeKeeps(st, st', id);
    case Room(ok, n) =>
      RoomIsMade(st, st', ok, n);
      RoomKeeps(st, st');
    case Log(ok) => LogKeeps(st, st', ok);
    case Sync(ok) => SyncKeeps(st, st', ok);
    case Insert => InsertKeeps(st, st');
    case Finish => FinishKeeps(st, st');
  }

  ghost predicate Run(states: seq<State>, actions: seq<Action>) {
    && |states| == |actions| + 1 && Initial(states[0])
    && forall i :: 0 <= i < |actions| ==> Takes(states[i], states[i + 1], actions[i])
  }

  lemma {:induction false} RunKeeps(states: seq<State>, actions: seq<Action>, i: nat)
    requires Run(states, actions) && i < |states|
    ensures Inv(states[i])
  {
    if i == 0 {
      InitialInv(states[0]);
    } else {
      RunKeeps(states, actions, i - 1);
      StepKeeps(states[i - 1], states[i], actions[i - 1]);
    }
  }

  /** A state some run leads to. */
  ghost predicate Reachable(st: State) {
    exists states, actions :: Run(states, actions) && states[|actions|] == st
  }

  lemma ReachableInv(st: State)
    requires Reachable(st)
    ensures Inv(st)
  {
    var states, actions :| Run(states, actions) && states[|actions|] == st;
    RunKeeps(states, actions, |actions|);
  }

  /** The call of writer id has returned with this outcome. */
  ghost predicate HasReturned(st: State, id: nat, ok: bool) {
    id < |st.requests| == |st.phase| && st.phase[id] == Returned(ok)
  }

  /** In every run: the memtable holds the batches placed, each once, in order of arrival, and a
      writer that has returned had its batch placed exactly when it was told OK. */
  lemma AppliedExactlyWhenOk(st: State, id: nat, ok: bool)
    requires Reachable(st) && HasReturned(st, id, ok) && st.requests[id].batch.Some?
    ensures id in st.placed <==> ok
    ensures st.mem == Laid(st.placed, st.requests, |st.requests|)
  {
    ReachableInv(st);
    assert id in st.placed <==> Served(st, id) && id < |st.requests| && st.requests[id].batch.Some?;
  }

  /** The numbers of a memtable, in the order in which its entries were added. */
  ghost predicate NumbersAscend(mem: seq<Numbered>) {
    forall i, j :: 0 <= i < j < |mem| ==> mem[i].sequence < mem[j].sequence
  }

  ghost predicate NumbersUpTo(mem: seq<Numbered>, bound: nat) {
    forall i :: 0 <= i < |mem| ==> mem[i].sequence <= bound
  }

  lemma AscendStep(front: seq<Numbered>, before: nat, us: seq<Update>, whole: seq<Numbered>, bound: nat)
    requires NumbersAscend(front) && NumbersUpTo(front, before) && before + |us| <= bound < TWO_64
    requires whole == front + Number(before + 1, us)
    ensures NumbersAscend(whole) && NumbersUpTo(whole, bound)
  {
    var more := Number(before + 1, us);
    assert forall i :: 0 <= i < |more| ==> more[i].sequence == before + 1 + i;
  }

  /** What is placed for the first n writers has numbers up to the bound. */
  ghost predicate PlacedUpTo(placed: map<nat, Place>, requests: seq<Request>, n: nat, bound: nat) {
    forall id :: id in placed && id < n ==> LastPlaced(requests, id, placed[id]) <= bound
  }

  ghost predicate PlacedAscending(placed: map<nat, Place>, requests: seq<Request>) {
    forall a, b :: a in placed && b in placed && a < b ==> LastPlaced(requests, a, placed[a]) <= placed[b].before
  }

  lemma UpToNext(placed: map<nat, Place>, requests: seq<Request>, n: nat, bound: nat)
    requires PlacedUpTo(placed, requests, n + 1, bound) && PlacedAscending(placed, requests)
    ensures PlacedUpTo(placed, requests, n, if n in placed then placed[n].before else bound)
    ensures n in placed ==> LastPlaced(requests, n, placed[n]) <= bound
  {
  }

  lemma {:induction false} LaidAscends(placed: map<nat, Place>, requests: seq<Request>, n: nat, bound: nat)
    requires n <= |requests| && bound < TWO_64
    requires PlacedUpTo(placed, requests, n, bound) && PlacedAscending(placed, requests)
    ensures NumbersAscend(Laid(placed, requests, n)) && NumbersUpTo(Laid(placed, requests, n), bound)
  {
    if n > 0 {
      LaidLast(placed, requests, n - 1);
      UpToNext(placed, requests, n - 1, bound);
      if n - 1 in placed {
        var before := placed[n - 1].before;
        LaidAscends(placed, requests, n - 1, before);
        AscendStep(Laid(placed, requests, n - 1), before, requests[n - 1].Updates(), Laid(placed, requests, n), bound);
      } else {
        LaidAscends(placed, requests, n - 1, bound);
      }
    }
  }

  lemma {:induction false} LaidLast(placed: map<nat, Place>, requests: seq<Request>, id: nat)
    requires id < |requests|
    ensures id in placed ==>
              Laid(placed, requests, id + 1) == Laid(placed, requests, id) + Number(placed[id].before + 1, requests[id].Updates())
    ensures id !in placed ==> Laid(placed, requests, id + 1) == Laid(placed, requests, id)
  {
  }

  /** No number is given out twice, and later updates have higher numbers. */
  lemma NumbersGivenOnce(st: State)
    requires Reachable(st) && Applied(st) <= MAX_SEQUENCE
    ensures NumbersAscend(st.mem)
  {
    ReachableInv(st);
    LaidAscends(st.placed, st.requests, |st.requests|, Applied(st));
  }

  /** A write that was told OK lies in the log under the numbers it has in the memtable, and a
      sync write in the synced part of the log, whoever committed it. */
  lemma LoggedWhenOk(st: State, id: nat, us: seq<Update>) returns (p: Place)
    requires Reachable(st) && HasReturned(st, id, true) && st.requests[id].batch == Some(us)
    ensures id in st.placed && p == st.placed[id] && p.record < |st.log|
    ensures LiesIn(st.log[p.record], p.before, us)
    ensures st.requests[id].sync ==> p.record < st.synced <= |st.log|
  {
    AppliedExactlyWhenOk(st, id, true);
    ReachableInv(st);
    p := st.placed[id];
    assert PlaceOk(st.requests, st.log, st.synced, id, p);
  }

  /** Update k of a batch is numbered in its group as it was placed. */
  lemma NumberedInGroup(g: Group, before: nat, us: seq<Update>, k: nat)
    requires LiesIn(g, before, us) && k < |us| && g.Last() <= MAX_SEQUENCE
    ensures Numbered(before + 1 + k, us[k]) in g.Numbers() && before + |us| <= MAX_SEQUENCE
  {
    assert us[k] == g.updates[before - g.before..][..|us|][k] == g.updates[before - g.before + k];
    assert g.Numbers()[before - g.before + k] == Numbered(before + 1 + k, us[k]);
  }

  lemma {:induction false} AddsHave(groups: seq<Group>, record: nat, e: Numbered)
    requires record < |groups| && e in groups[record].Numbers()
    ensures e in Adds(groups)
  {
    if record > 0 {
      AddsHave(groups[1..], record - 1, e);
    }
  }

  /** What a crash may leave of the log: any part of it that reaches to the last sync. */
  ghost predicate LeftByCrash(crc: Crc, log: seq<Group>, synced: nat, c: Bytes) {
    && synced <= |log| && (forall g :: g in log ==> g.Committed())
    && c <= FileOf(crc, Records(log)) && |FileOf(crc, Records(log[..synced]))| <= |c|
  }

  /** From whatever a crash leaves of the log recovery applies every update of the synced part. */
  lemma {:induction false} SyncedGroupsSurvive(crc: Crc, log: seq<Group>, synced: nat, c: Bytes, paranoid: bool,
                                               least: nat, r: Recovered, record: nat, e: Numbered)
    requires LeftByCrash(crc, log, synced, c) && record < synced && e in log[record].Numbers()
    requires r == Recover(crc, c, 0, paranoid, Recovered([], least, true))
    ensures e in r.adds
  {
    var m := Whole(crc, Records(log), |c|);
    assert Records(log)[..synced] == Records(log[..synced]);
    WholeIsExact(crc, Records(log), |c|, synced);
    RecoversWholeGroups(crc, log, c, paranoid, least);
    AddsHave(log[..m], record, e);
  }

  /** Durability: at every moment of every run, whatever a crash then leaves of the log, recovery
      applies each update of each sync write that was told OK, under the number it has in the memtable. */
  lemma {:induction false} SyncWritesSurvive(crc: Crc, st: State, c: Bytes, paranoid: bool, least: nat, r: Recovered,
                                             id: nat, us: seq<Update>, k: nat) returns (e: Numbered)
    requires Reachable(st) && LeftByCrash(crc, st.log, st.synced, c)
    requires r == Recover(crc, c, 0, paranoid, Recovered([], least, true))
    requires HasReturned(st, id, true) && st.requests[id].sync && st.requests[id].batch == Some(us) && k < |us|
    ensures id in st.placed && e == Numbered(st.placed[id].before + 1 + k, us[k])
    ensures e in st.mem && e in r.adds
  {
    var record;
    record, e := SyncedEntry(st, id, us, k);
    SyncedGroupsSurvive(crc, st.log, st.synced, c, paranoid, least, r, record, e);
  }

  /** The log record of an update of a sync write that was told OK. */
  lemma {:induction false} SyncedEntry(st: State, id: nat, us: seq<Update>, k: nat) returns (record: nat, e: Numbered)
    requires Reachable(st) && forall g :: g in st.log ==> g.Committed()
    requires HasReturned(st, id, true) && st.requests[id].sync && st.requests[id].batch == Some(us) && k < |us|
    ensures id in st.placed && e == Numbered(st.placed[id].before + 1 + k, us[k]) && e in st.mem
    ensures record < st.synced <= |st.log| && e in st.log[record].Numbers()
  {
    var p := LoggedWhenOk(st, id, us);
    record, e := p.record, Numbered(p.before + 1 + k, us[k]);
    CommittedLast(st.log, record);
    NumberedInGroup(st.log[record], p.before, us, k);
    PlacedIsApplied(st, id, p, us, k, e);
  }

  lemma CommittedLast(log: seq<Group>, i: nat)
    requires (forall g :: g in log ==> g.Committed()) && i < |log|
    ensures log[i].Last() <= MAX_SEQUENCE
  {
    assert log[i] in log;
  }

  lemma MemIsLaid(st: State)
    requires Reachable(st)
    ensures st.mem == Laid(st.placed, st.requests, |st.requests|)
  {
    ReachableInv(st);
  }

  lemma {:induction false} PlacedIsApplied(st: State, id: nat, p: Place, us: seq<Update>, k: nat, e: Numbered)
    requires Reachable(st) && id in st.placed && id < |st.requests| && st.requests[id].batch == Some(us) && k < |us|
    requires p == st.placed[id] && p.before + |us| <= MAX_SEQUENCE && e == Numbered(p.before + 1 + k, us[k])
    ensures e in st.mem
  {
    MemIsLaid(st);
    LaidHas(st.placed, st.requests, |st.requests|, id, us, k);
  }

  lemma NumberHas(before: nat, us: seq<Update>, k: nat)
    requires k < |us| && before + |us| <= MAX_SEQUENCE
    ensures Numbered(before + 1 + k, us[k]) in Number(before + 1, us)
  {
    assert Number(before + 1, us)[k] == Numbered(before + 1 + k, us[k]);
  }

  /** What was placed is laid out. */
  lemma {:induction false} BatchLaid(placed: map<nat, Place>, requests: seq<Request>, n: nat, id: nat, x: Numbered)
    requires id < n <= |requests| && id in placed && x in Number(placed[id].before + 1, requests[id].Updates())
    ensures x in Laid(placed, requests, n)
  {
    LaidLast(placed, requests, n - 1);
    if id < n - 1 { BatchLaid(placed, requests, n - 1, id, x); }
  }

  lemma {:induction false} LaidHas(placed: map<nat, Place>, requests: seq<Request>, n: nat, id: nat, us: seq<Update>,
                                   k: nat)
    requires id < n <= |requests| && id in placed && requests[id].batch == Some(us) && k < |us|
    requires placed[id].before + |us| <= MAX_SEQUENCE
    ensures Numbered(placed[id].before + 1 + k, us[k]) in Laid(placed, requests, n)
  {
    NumberHas(placed[id].before, us, k);
    BatchLaid(placed, requests, n, id, Numbered(placed[id].before + 1 + k, us[k]));
  }

  /** A step somebody in the store, not a new caller, can take. */
  ghost predicate CanGoOn(st: State) {
    exists st', a :: Takes(st, st', a) && !a.Enter? && (a.Wake? ==> a.id < |st.phase| && st.phase[a.id].Signalled?)
  }

  lemma GoesOn(st: State, st': State, a: Action)
    requires Takes(st, st', a) && !a.Enter? && (a.Wake? ==> a.id < |st.phase| && st.phase[a.id].Signalled?)
    ensures CanGoOn(st)
  {
  }

  /** No lost wake-up and no deadlock: as long as some call has not returned, either a leader can
      go on or a writer that was signalled can. */
  lemma NeverStuck(st: State, id: nat)
    requires Reachable(st) && id < |st.phase| && !st.phase[id].Returned?
    ensures CanGoOn(st)
  {
    ReachableInv(st);
    match st.stage
    case NoLeader =>
      var woken := if id < Popped(st) then id else Popped(st);
      assert st.phase[woken] == Signalled;
      var st' := if woken in st.done then st.(phase := st.phase[woken := Returned(st.done[woken])])
                 else st.(phase := st.phase[woken := Leading], stage := Making);
      GoesOn(st, st', Wake(woken));
    case Making =>
      GoesOn(st, st.(stage := Finishing(1, st.lastSequence, false, false)), Room(false, 1));
    case Logging(n, group) =>
      GoesOn(st, st.(stage := Finishing(n, group.Last(), false, false)), Log(false));
    case Syncing(n, group) =>
      GoesOn(st, st.(stage := Finishing(n, group.Last(), false, true)), Sync(false));
    case Inserting(n, group) =>
      var st' := st.(mem := st.mem + group.Numbers(),
                     placed := st.placed + Places(st.requests, Popped(st), n, group.before, |st.log| - 1),
                     stage := Finishing(n, group.Last(), true, false));
      GoesOn(st, st', Insert);
    case Finishing(n, last, ok, syncError) =>
      var st' := st.(lastSequence := last, bgError := st.bgError || syncError, stage := NoLeader,
                     writers := st.writers[n..],
                     phase := seq(|st.phase|, i requires 0 <= i < |st.phase| => PhaseAfter(st.phase, Popped(st), n, ok, i)),
                     done := map i | 0 <= i < Popped(st) + n && (i in st.done || Popped(st) <= i) ::
                               if Popped(st) <= i then ok else st.done[i]);
      GoesOn(st, st', Finish);
  }
}
