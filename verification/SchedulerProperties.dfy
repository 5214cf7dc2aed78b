/** What the scheduler promises, over every run. */
module SchedulerProperties {
  import opened Scheduler
  import opened SchedulerRuns

  // ---- runs -------------------------------------------------------------

  ghost predicate CanRun<Id>(s: State<Id>, steps: seq<Step<Id>>)
    requires Inv(s)
    decreases |steps|
  {
    steps == [] || (Enabled(s, steps[0]) && (StepKeeps(s, steps[0]); CanRun(Apply(s, steps[0]), steps[1..])))
  }

  /** The invariant holds in every state of a run. */
  ghost function RunTo<Id>(s: State<Id>, steps: seq<Step<Id>>): (r: State<Id>)
    requires Inv(s) && CanRun(s, steps)
    ensures Inv(r)
    decreases |steps|
  {
    if steps == [] then s
    else
      StepKeeps(s, steps[0]);
      RunTo(Apply(s, steps[0]), steps[1..])
  }

  /** A service with its workers waiting and nothing requested. */
  predicate Initial<Id(==)>(s: State<Id>) {
    && s.reqs == map[] && s.queue == [] && s.inProgress == {} && s.lost == [] && s.asked == []
    && forall w :: 0 <= w < |s.workers| ==> s.workers[w].phase.Idle?
  }

  lemma InitialInv<Id>(s: State<Id>)
    requires Initial(s)
    ensures Inv(s)
  {}

  // ---- conservation -----------------------------------------------------

  /** In every reachable state: what was handed out is what was delivered, what workers hold
      and what was lost, each as often as it was requested; and a request is a success exactly
      when everything it asked for has been delivered, each entry once. */
  lemma Conservation<Id>(s: State<Id>, id: Id)
    requires Inv(s) && id in s.reqs
    ensures var r := s.reqs[id];
            && multiset(r.tiles[..r.next]) == multiset(r.delivered) + Held(s.workers, id) + LostTiles(s.lost, id)
            && r.next == r.results + |Held(s.workers, id)| + |LostTiles(s.lost, id)|
            && (r.status == Success <==> multiset(r.delivered) == multiset(r.tiles))
  {
    var r := s.reqs[id];
    assert RequestFits(s, id);
    CountResults(r, Held(s.workers, id), LostTiles(s.lost, id));
    if r.status == Success {
      assert r.tiles[..r.next] == r.tiles;
      assert |Held(s.workers, id)| == 0 && |LostTiles(s.lost, id)| == 0;
    }
    if multiset(r.delivered) == multiset(r.tiles) {
      assert |multiset(r.delivered)| == |r.delivered| && |multiset(r.tiles)| == |r.tiles|;
    }
  }

  // ---- one walk over the queue ------------------------------------------

  function MovedToEnd<Id>(q: seq<Id>, at: nat): seq<Id>
    requires at < |q|
  {
    q[..at] + q[at + 1..] + [q[at]]
  }

  /** What nextJob may change: requests, and for a job found, the queue and the key set. */
  ghost predicate SameBut<Id>(s: State<Id>, s': State<Id>, w: nat)
    requires w < |s.workers|
  {
    && s'.cache == s.cache && s'.lost == s.lost && s'.asked == s.asked && s'.reqs.Keys == s.reqs.Keys
    && |s'.workers| == |s.workers| && s'.workers[w].source == s.workers[w].source
    && (forall v :: 0 <= v < |s.workers| && v != w ==> s'.workers[v] == s.workers[v])
    && (!Found(s', w) ==> s'.workers == s.workers && s'.queue == s.queue && s'.inProgress == s.inProgress)
  }

  /** Worker `w` took the next tile of the request at `at`. */
  ghost predicate TookAt<Id>(s: State<Id>, s': State<Id>, w: nat, at: nat)
    requires w < |s.workers| == |s'.workers|
  {
    && Found(s', w) && at < |s.queue| && s'.queue == MovedToEnd(s.queue, at)
    && var job := s'.workers[w].phase.job;
       && job.req == s.queue[at] && job.req in s.reqs && job.req in s'.reqs && s.reqs[job.req].next < s'.reqs[job.req].next
       && job.key !in s.inProgress && job.key !in s.cache && s'.inProgress == s.inProgress + {job.key}
  }

  lemma DispatchTakes<Id>(s: State<Id>, w: nat, pos: nat)
    requires Known(s) && w < |s.workers| && pos < |s.queue| && Scheduler.At(s, s.workers[w].source, s.queue[pos]) == Take
    ensures SameBut(s, Dispatch(s, w, pos), w) && TookAt(s, Dispatch(s, w, pos), w, pos)
  {}

  lemma ServedBefore<Id>(s: State<Id>, id: Id, s': State<Id>, w: nat, at: nat)
    requires Known(s) && w < |s.workers| && id in s.reqs && s.reqs[id].next < |s.reqs[id].tiles|
    requires SameBut(Serve(s, id), s', w) && (Found(s', w) ==> TookAt(Serve(s, id), s', w, at))
    ensures SameBut(s, s', w) && (Found(s', w) ==> TookAt(s, s', w, at))
  {
    assert Serve(s, id).reqs.Keys == s.reqs.Keys;
  }

  lemma {:induction false} ScanShape<Id>(s: State<Id>, w: nat, pos: nat, served: bool) returns (at: nat)
    requires Known(s) && w < |s.workers| && s.workers[w].phase.Idle? && pos <= |s.queue|
    ensures var s' := Scan(s, w, pos, served).0; SameBut(s, s', w) && (Found(s', w) ==> TookAt(s, s', w, at) && pos <= at)
    decreases |s.queue| - pos
  {
    at := pos;
    if pos < |s.queue| {
      match Scheduler.At(s, s.workers[w].source, s.queue[pos])
      case Pass => at := ScanShape(s, w, pos + 1, served);
      case Cached =>
        at := ScanShape(Serve(s, s.queue[pos]), w, pos + 1, true);
        ServedBefore(s, s.queue[pos], Scan(s, w, pos, served).0, w, at);
      case Take => DispatchTakes(s, w, pos);
    }
  }

  lemma {:induction false} WalksShape<Id>(s: State<Id>, w: nat) returns (at: nat)
    requires Known(s) && w < |s.workers| && s.workers[w].phase.Idle?
    ensures var s' := Walks(s, w); SameBut(s, s', w) && (Found(s', w) ==> TookAt(s, s', w, at))
    decreases Undispatched(s.reqs, s.queue)
  {
    var (s', served) := Scan(s, w, 0, false);
    at := ScanShape(s, w, 0, false);
    ScanFalls(s, w, 0, false);
    if served && !Found(s', w) {
      at := WalksShape(s', w);
      if Found(Walks(s', w), w) { ScanGrows(s, w, 0, false, Walks(s', w).workers[w].phase.job.req); }
    }
  }

  // ---- completeness -----------------------------------------------------

  /** A walk that serves nothing and finds nothing passed every request by. */
  lemma {:induction false} QuietScan<Id>(s: State<Id>, w: nat, pos: nat)
    requires Known(s) && w < |s.workers| && s.workers[w].phase.Idle? && pos <= |s.queue|
    requires var (s', served) := Scan(s, w, pos, false); !served && !Found(s', w)
    ensures Scan(s, w, pos, false).0 == s
    ensures forall i :: pos <= i < |s.queue| ==> Scheduler.At(s, s.workers[w].source, s.queue[i]) == Pass
    decreases |s.queue| - pos
  {
    if pos < |s.queue| {
      if Scheduler.At(s, s.workers[w].source, s.queue[pos]) == Cached {
        ServedStays(Serve(s, s.queue[pos]), w, pos + 1);
      } else {
        QuietScan(s, w, pos + 1);
      }
    }
  }

  lemma {:induction false} ServedStays<Id>(s: State<Id>, w: nat, pos: nat)
    requires Known(s) && w < |s.workers| && pos <= |s.queue|
    ensures Scan(s, w, pos, true).1
    decreases |s.queue| - pos
  {
    if pos < |s.queue| {
      match Scheduler.At(s, s.workers[w].source, s.queue[pos])
      case Pass => ServedStays(s, w, pos + 1);
      case Cached => ServedStays(Serve(s, s.queue[pos]), w, pos + 1);
      case Take =>
    }
  }

  lemma {:induction false} QuietWalks<Id>(s: State<Id>, w: nat)
    requires Known(s) && w < |s.workers| && s.workers[w].phase.Idle? && !Found(Walks(s, w), w)
    ensures var s' := Walks(s, w); forall i :: 0 <= i < |s'.queue| ==> Scheduler.At(s', s.workers[w].source, s'.queue[i]) == Pass
    decreases Undispatched(s.reqs, s.queue)
  {
    var (s', served) := Scan(s, w, 0, false);
    ScanKeepsWorker(s, w, 0, false);
    ScanFalls(s, w, 0, false);
    if served { QuietWalks(s', w); } else { QuietScan(s, w, 0); }
  }

  /** The next tile of `r` is being worked on (or was lost), and not cached. */
  ghost predicate Waits<Id>(s: State<Id>, src: Source, r: Request) {
    Serves(src, r) ==> r.next < |r.tiles| && NextKey(src, r) in s.inProgress && NextKey(src, r) !in s.cache
  }

  /** nextJob returns nothing only when every queued request it could serve waits for a tile
      in progress. */
  lemma NothingToDo<Id>(s: State<Id>, w: nat)
    requires Inv(s) && w < |s.workers| && s.workers[w].phase.Idle? && !Found(NextJob(s, w), w)
    ensures var s' := NextJob(s, w);
            && s'.workers == s.workers && s'.inProgress == s.inProgress && s'.lost == s.lost
            && forall id :: id in s'.queue ==> id in s.queue && Waits(s', s.workers[w].source, s'.reqs[id])
  {
    var s1, s' := Walks(s, w), NextJob(s, w);
    var at := WalksShape(s, w);
    QuietWalks(s, w);
    NextJobKeeps(s, w);
    forall id | id in s'.queue ensures Waits(s', s.workers[w].source, s'.reqs[id]) {
      var i :| 0 <= i < |s1.queue| && s1.queue[i] == id;
      assert Scheduler.At(s1, s.workers[w].source, s1.queue[i]) == Pass;
    }
  }

  /** A job that is found is new: nobody works on its key, and it is not cached. */
  lemma FoundIsNew<Id>(s: State<Id>, w: nat)
    requires Inv(s) && w < |s.workers| && s.workers[w].phase.Idle? && Found(NextJob(s, w), w)
    ensures var job := NextJob(s, w).workers[w].phase.job;
            job.req in s.queue && job.key !in s.inProgress && job.key !in s.cache && !HeldBy(s.workers, job.key)
  {
    var at := WalksShape(s, w);
  }

  // ---- requests only ever move forward ----------------------------------

  ghost predicate Grew(r: Request, r': Request) {
    && r'.mapId == r.mapId && r'.layerId == r.layerId && r'.tiles == r.tiles
    && r.next <= r'.next && r.delivered <= r'.delivered && r.done <= r'.done
  }

  lemma NotifyGrows(r: Request, tile: nat)
    ensures Grew(r, NotifyResult(r, tile)) && Grew(r, NotifyResult(r.(next := r.next + 1), tile))
  {}

  lemma {:induction false} ScanGrows<Id>(s: State<Id>, w: nat, pos: nat, served: bool, id: Id)
    requires Known(s) && w < |s.workers| && pos <= |s.queue| && id in s.reqs
    ensures var s' := Scan(s, w, pos, served).0; id in s'.reqs && Grew(s.reqs[id], s'.reqs[id])
    decreases |s.queue| - pos
  {
    if pos < |s.queue| {
      match Scheduler.At(s, s.workers[w].source, s.queue[pos])
      case Pass => ScanGrows(s, w, pos + 1, served, id);
      case Cached =>
        ScanGrows(Serve(s, s.queue[pos]), w, pos + 1, true, id);
      case Take =>
    }
  }

  lemma {:induction false} WalksGrows<Id>(s: State<Id>, w: nat, id: Id)
    requires Known(s) && w < |s.workers| && s.workers[w].phase.Idle? && id in s.reqs
    ensures id in Walks(s, w).reqs && Grew(s.reqs[id], Walks(s, w).reqs[id])
    decreases Undispatched(s.reqs, s.queue)
  {
    var (s', served) := Scan(s, w, 0, false);
    ScanGrows(s, w, 0, false, id);
    ScanKeepsWorker(s, w, 0, false);
    ScanFalls(s, w, 0, false);
    if served && !Found(s', w) { WalksGrows(s', w, id); }
  }

  /** All that a step needs to be defined. */
  ghost predicate Sound<Id>(s: State<Id>) { Known(s) && JobsKnown(s.reqs.Keys, s.workers, s.lost) }

  lemma CompleteGrows<Id>(s: State<Id>, w: nat, id: Id)
    requires Sound(s) && Enabled(s, Complete(w)) && id in s.reqs
    ensures s.workers[w].phase.job.req in s.reqs
    ensures id in CompleteJob(s, w).reqs && Grew(s.reqs[id], CompleteJob(s, w).reqs[id])
  {
    assert Busy(s.workers, w);
    NotifyGrows(s.reqs[id], s.workers[w].phase.job.key.tile);
  }

  lemma AbortGrows<Id>(s: State<Id>, i: Id, id: Id)
    requires i in s.reqs && id in s.reqs
    ensures id in AbortRequest(s, i).reqs && Grew(s.reqs[id], AbortRequest(s, i).reqs[id])
  {}

  lemma StepGrows<Id>(s: State<Id>, step: Step<Id>, id: Id)
    requires Sound(s) && Enabled(s, step) && id in s.reqs
    ensures id in Apply(s, step).reqs && Grew(s.reqs[id], Apply(s, step).reqs[id])
  {
    match step
    case Poll(w) => WalksGrows(s, w, id);
    case Complete(w) => CompleteGrows(s, w, id);
    case Abort(i) => AbortGrows(s, i, id);
    case Add(i, mapId, layerId, tiles) => assert AddRequest(s, i, NewRequest(mapId, layerId, tiles)).reqs[id] == s.reqs[id];
    case _ => assert Apply(s, step).reqs == s.reqs;
  }

  lemma {:induction false} RunGrows<Id>(s: State<Id>, steps: seq<Step<Id>>, id: Id)
    requires Inv(s) && CanRun(s, steps) && id in s.reqs
    ensures id in RunTo(s, steps).reqs && Grew(s.reqs[id], RunTo(s, steps).reqs[id])
    decreases |steps|
  {
    if steps != [] {
      StepKeeps(s, steps[0]);
      StepGrows(s, steps[0], id);
      RunGrows(Apply(s, steps[0]), steps[1..], id);
    }
  }

  /** A request that is done stays as it is done: an aborted one never becomes a success,
      and its done callback runs once and not again. */
  lemma DoneIsFinal<Id>(s: State<Id>, steps: seq<Step<Id>>, id: Id)
    requires Inv(s) && CanRun(s, steps) && id in s.reqs && s.reqs[id].status != Open
    ensures var r' := RunTo(s, steps).reqs; id in r' && r'[id].status == s.reqs[id].status && r'[id].done == [s.reqs[id].status]
  {
    RunGrows(s, steps, id);
    assert RequestFits(s, id);
    assert RequestFits(RunTo(s, steps), id);
    assert RunTo(s, steps).reqs[id].done[0] == s.reqs[id].done[0];
  }

  /** Aborting takes effect exactly if the request is open and some of its tiles have not been
      handed out; otherwise it changes nothing. */
  lemma AbortEffect<Id>(s: State<Id>, id: Id)
    requires Inv(s) && id in s.reqs
    ensures var r, s' := s.reqs[id], AbortRequest(s, id);
            if r.status == Open && r.next < |r.tiles| then s'.reqs[id] == r.(status := Aborted, done := [Aborted]) && id !in s'.queue
            else s' == s
  {
    assert RequestFits(s, id);
    CountResults(s.reqs[id], Held(s.workers, id), LostTiles(s.lost, id));
  }

  // ---- one call of a data source per key --------------------------------

  /** Unless the cache drops entries, a key that has been asked for is cached or in progress. */
  ghost predicate AskedOnce<Id>(s: State<Id>) { Asked(s.asked, s.cache, s.inProgress, s.workers) }

  ghost predicate Asked<Id>(asked: seq<Key>, cache: set<Key>, inProgress: set<Key>, ws: seq<Worker<Id>>) {
    && Distinct(asked)
    && (forall k :: k in asked ==> k in cache || k in inProgress)
    && (forall w :: Busy(ws, w) && ws[w].phase.Dispatched? ==> ws[w].phase.job.key !in asked)
    && (forall w :: Busy(ws, w) && ws[w].phase.Stored? ==> ws[w].phase.job.key in cache)
  }

  /** A worker that does not end up with a new job. */
  lemma WorkerMoves<Id>(asked: seq<Key>, cache: set<Key>, inProgress: set<Key>, ws: seq<Worker<Id>>, w: nat, x: Worker<Id>)
    requires Asked(asked, cache, inProgress, ws) && w < |ws| && !x.phase.Dispatched? && (x.phase.Stored? ==> x.phase.job.key in cache)
    ensures Asked(asked, cache, inProgress, ws[w := x])
  {
    var ws' := ws[w := x];
    forall v | Busy(ws', v) && v != w ensures Busy(ws, v) && ws'[v] == ws[v] {}
  }

  lemma WorkerStarts<Id>(asked: seq<Key>, cache: set<Key>, inProgress: set<Key>, ws: seq<Worker<Id>>, w: nat, x: Worker<Id>)
    requires Asked(asked, cache, inProgress, ws) && w < |ws| && x.phase.Dispatched?
    requires x.phase.job.key !in cache && x.phase.job.key !in inProgress
    ensures Asked(asked, cache, inProgress + {x.phase.job.key}, ws[w := x])
  {
    var ws' := ws[w := x];
    forall v | Busy(ws', v) && v != w ensures Busy(ws, v) && ws'[v] == ws[v] {}
  }

  /** Asking for the key of a dispatched job; no other worker has that key. */
  lemma WorkerAsks<Id>(asked: seq<Key>, cache: set<Key>, inProgress: set<Key>, lostKeys: set<Key>, ws: seq<Worker<Id>>, w: nat, x: Worker<Id>)
    requires Asked(asked, cache, inProgress, ws) && Exclusive(ws, inProgress, lostKeys)
    requires Busy(ws, w) && ws[w].phase.Dispatched? && (x.phase.Idle? || x.phase.Fetched?)
    ensures Asked(asked + [ws[w].phase.job.key], cache, inProgress, ws[w := x])
  {
    var ws' := ws[w := x];
    forall v | Busy(ws', v) && v != w ensures Busy(ws, v) && ws'[v] == ws[v] {}
  }

  /** A stored key is cached when it stops being in progress. */
  lemma KeyReleased<Id>(asked: seq<Key>, cache: set<Key>, inProgress: set<Key>, ws: seq<Worker<Id>>, w: nat)
    requires Asked(asked, cache, inProgress, ws) && Busy(ws, w) && ws[w].phase.Stored?
    ensures Asked(asked, cache, inProgress - {ws[w].phase.job.key}, ws)
  {}

  lemma PollAsked<Id>(s: State<Id>, w: nat)
    requires Known(s) && AskedOnce(s) && Enabled(s, Poll(w))
    ensures AskedOnce(NextJob(s, w))
  {
    var at := WalksShape(s, w);
    var s' := NextJob(s, w);
    if Found(s', w) {
      WorkerStarts(s.asked, s.cache, s.inProgress, s.workers, w, s'.workers[w]);
      assert s'.workers == s.workers[w := s'.workers[w]];
    }
  }

  lemma AskedKeeps<Id>(s: State<Id>, step: Step<Id>)
    requires Sound(s) && Exclusive(s.workers, s.inProgress, LostKeys(s.lost)) && AskedOnce(s) && Enabled(s, step) && !step.Evict?
    ensures AskedOnce(Apply(s, step))
  {
    match step
    case Poll(w) => PollAsked(s, w);
    case Fetch(w) => WorkerAsks(s.asked, s.cache, s.inProgress, LostKeys(s.lost), s.workers, w, Apply(s, step).workers[w]);
    case Put(w) =>
      assert Asked(s.asked, s.cache + {s.workers[w].phase.job.key}, s.inProgress, s.workers);
      WorkerMoves(s.asked, s.cache + {s.workers[w].phase.job.key}, s.inProgress, s.workers, w, Apply(s, step).workers[w]);
    case Complete(w) =>
      KeyReleased(s.asked, s.cache, s.inProgress, s.workers, w);
      WorkerMoves(s.asked, s.cache, s.inProgress - {s.workers[w].phase.job.key}, s.workers, w, Apply(s, step).workers[w]);
    case Fail(w) =>
      if s.workers[w].phase.Dispatched? {
        WorkerAsks(s.asked, s.cache, s.inProgress, LostKeys(s.lost), s.workers, w, Apply(s, step).workers[w]);
      } else {
        WorkerMoves(s.asked, s.cache, s.inProgress, s.workers, w, Apply(s, step).workers[w]);
      }
    case _ =>
  }

  /** However many requests name a tile, and even if fetching it fails, its data source is
      asked for it at most once as long as the cache drops nothing. */
  lemma {:induction false} SingleFetch<Id>(s: State<Id>, steps: seq<Step<Id>>)
    requires Inv(s) && CanRun(s, steps) && AskedOnce(s)
    requires forall i :: 0 <= i < |steps| ==> !steps[i].Evict?
    ensures AskedOnce(RunTo(s, steps))
    decreases |steps|
  {
    if steps != [] {
      StepKeeps(s, steps[0]);
      AskedKeeps(s, steps[0]);
      SingleFetch(Apply(s, steps[0]), steps[1..]);
    }
  }

  /** A service that starts with nothing requested asks for each key at most once, over every
      run without eviction, whatever its cache holds. */
  lemma NeverAskedTwice<Id>(s: State<Id>, steps: seq<Step<Id>>)
    requires Initial(s) && CanRun(s, steps)
    requires forall i :: 0 <= i < |steps| ==> !steps[i].Evict?
    ensures Distinct(RunTo(s, steps).asked)
  {
    InitialInv(s);
    assert AskedOnce(s);
    SingleFetch(s, steps);
  }

  // ---- fairness ---------------------------------------------------------

  /** `id` is in the queue, with `p` requests ahead of it. */
  predicate IsAt<Id(==)>(q: seq<Id>, id: Id, p: nat) { p < |q| && q[p] == id }

  /** Serving a cached tile to one request changes nothing for another. */
  lemma ServedAnother<Id>(s: State<Id>, w: nat, other: Id, id: Id)
    requires Known(s) && w < |s.workers| && other in s.reqs && id in s.reqs && other != id && s.reqs[other].next < |s.reqs[other].tiles|
    ensures var s1 := Serve(s, other);
            && s1.queue == s.queue && s1.workers == s.workers && s1.reqs[id] == s.reqs[id] && s1.cache == s.cache && s1.inProgress == s.inProgress
            && Scheduler.At(s1, s.workers[w].source, id) == Scheduler.At(s, s.workers[w].source, id)
  {}

  /** A walk gets to `id`, unless it takes a request ahead of it. */
  lemma {:induction false} ScanFair<Id>(s: State<Id>, w: nat, pos: nat, served: bool, id: Id, p: nat) returns (at: nat)
    requires Known(s) && Distinct(s.queue) && w < |s.workers| && s.workers[w].phase.Idle?
    requires pos <= p && IsAt(s.queue, id, p) && Scheduler.At(s, s.workers[w].source, id) == Take
    ensures var s' := Scan(s, w, pos, served).0; TookAt(s, s', w, at) && at <= p
    ensures at < p ==> Scan(s, w, pos, served).0.reqs[id] == s.reqs[id]
    decreases p - pos
  {
    ScanFrom(s, w, pos, pos + 1, served, s.queue[pos]);
    if pos == p { return p; }
    match Scheduler.At(s, s.workers[w].source, s.queue[pos])
    case Pass => at := ScanFair(s, w, pos + 1, served, id, p);
    case Cached =>
      ServedAnother(s, w, s.queue[pos], id);
      at := ScanFair(Serve(s, s.queue[pos]), w, pos + 1, true, id, p);
    case Take => at := pos;
  }

  /** Cleaning up keeps the order: a prefix of the queue becomes a prefix. */
  lemma {:induction false} UnfinishedPrefix<Id>(reqs: map<Id, Request>, queue: seq<Id>, k: nat)
    requires (forall id :: id in queue ==> id in reqs) && k <= |queue|
    ensures Unfinished(reqs, queue[..k]) <= Unfinished(reqs, queue) && |Unfinished(reqs, queue[..k])| <= k
    decreases |queue|
  {
    if k < |queue| {
      assert queue[..|queue| - 1][..k] == queue[..k];
      UnfinishedPrefix(reqs, queue[..|queue| - 1], k);
    } else if k > 0 {
      assert queue[..k] == queue;
      UnfinishedPrefix(reqs, queue[..k - 1], k - 1);
      assert queue[..k - 1][..k - 1] == queue[..k - 1];
    }
  }

  lemma UnfinishedPlace<Id>(reqs: map<Id, Request>, queue: seq<Id>, p: nat) returns (p': nat)
    requires (forall id :: id in queue ==> id in reqs) && p < |queue|
    requires reqs[queue[p]].next != |reqs[queue[p]].tiles|
    ensures p' == |Unfinished(reqs, queue[..p])| <= p && IsAt(Unfinished(reqs, queue), queue[p], p')
    ensures forall q: nat :: p < q <= |queue| ==> p' < |Unfinished(reqs, queue[..q])|
  {
    p' := |Unfinished(reqs, queue[..p])|;
    assert queue[..p + 1][..p] == queue[..p];
    UnfinishedPrefix(reqs, queue, p + 1);
    UnfinishedPrefix(reqs, queue, p);
    forall q: nat | p < q <= |queue| ensures p' < |Unfinished(reqs, queue[..q])| {
      assert queue[..q][..p + 1] == queue[..p + 1];
      UnfinishedPrefix(reqs, queue[..q], p + 1);
    }
  }

  /** If a worker could take the next tile of `id` but takes another request's, that request
      was ahead of `id` and is now behind it, or has left the queue; and fewer requests are
      ahead of `id` than before. */
  lemma Fairness<Id>(s: State<Id>, w: nat, id: Id, p: nat) returns (p': nat)
    requires Inv(s) && w < |s.workers| && s.workers[w].phase.Idle?
    requires IsAt(s.queue, id, p) && Scheduler.At(s, s.workers[w].source, id) == Take
    ensures var s' := NextJob(s, w);
            && Found(s', w)
            && var other := s'.workers[w].phase.job.req;
               other != id ==>
                 && p' < p && IsAt(s'.queue, id, p') && s'.reqs[id] == s.reqs[id]
                 && (exists a: nat :: a < p && IsAt(s.queue, other, a))
                 && (forall a: nat :: IsAt(s'.queue, other, a) ==> p' < a)
  {
    var at := ScanFair(s, w, 0, false, id, p);
    var s1, s' := Walks(s, w), NextJob(s, w);
    p' := 0;
    if at < p {
      p' := FairPlace(s, s1, w, at, id, p);
      assert IsAt(s.queue, s.queue[at], at);
    }
  }

  lemma FairPlace<Id>(s: State<Id>, s1: State<Id>, w: nat, at: nat, id: Id, p: nat) returns (p': nat)
    requires Inv(s) && w < |s.workers| == |s1.workers| && at < p && IsAt(s.queue, id, p) && TookAt(s, s1, w, at)
    requires Known(s1) && s1.reqs[id] == s.reqs[id]
    ensures p' < p && IsAt(Unfinished(s1.reqs, s1.queue), id, p')
    ensures forall a: nat :: IsAt(Unfinished(s1.reqs, s1.queue), s.queue[at], a) ==> p' < a
  {
    var before, last := p - 1, |s1.queue| - 1;
    AfterMove(s.queue, at, p, before, last);
    MoveToEnd(s.queue, at);
    p' := LastBehind(s1.reqs, s1.queue, before, last);
  }

  lemma AfterMove<Id>(q: seq<Id>, at: nat, p: nat, before: nat, last: nat)
    requires at < p == before + 1 < |q| == last + 1
    ensures var q' := MovedToEnd(q, at); |q'| == |q| && q'[before] == q[p] && q'[last] == q[at] && before < last
  {}

  /** What is last in a list stays behind every other entry when finished ones are dropped. */
  lemma LastBehind<Id>(reqs: map<Id, Request>, q: seq<Id>, p: nat, last: nat) returns (p': nat)
    requires (forall i :: i in q ==> i in reqs) && Distinct(q) && p < last == |q| - 1
    requires reqs[q[p]].next != |reqs[q[p]].tiles|
    ensures p' <= p && IsAt(Unfinished(reqs, q), q[p], p')
    ensures forall a: nat :: IsAt(Unfinished(reqs, q), q[last], a) ==> p' < a
  {
    p' := UnfinishedPlace(reqs, q, p);
    UnfinishedDistinct(reqs, q);
    if reqs[q[last]].next != |reqs[q[last]].tiles| {
      var l := UnfinishedPlace(reqs, q, last);
    }
  }

  lemma {:induction false} WithoutPlace<Id>(q: seq<Id>, gone: Id, id: Id, p: nat) returns (p': nat)
    requires IsAt(q, id, p) && id != gone
    ensures p' <= p && IsAt(Without(q, gone), id, p')
  {
    var n := |q| - 1;
    if p < n {
      p' := WithoutPlace(q[..n], gone, id, p);
    } else {
      p' := |Without(q[..n], gone)|;
      WithoutShort(q[..n], gone);
    }
  }

  lemma {:induction false} WithoutShort<Id>(q: seq<Id>, gone: Id)
    ensures |Without(q, gone)| <= |q|
  {
    if q != [] { WithoutShort(q[..|q| - 1], gone); }
  }

  /** A poll that takes nothing of `id` moves it only forward. */
  lemma PollPlace<Id>(s: State<Id>, w: nat, id: Id, p: nat) returns (p': nat)
    requires Inv(s) && w < |s.workers| && s.workers[w].phase.Idle? && IsAt(s.queue, id, p)
    requires id in NextJob(s, w).reqs && NextJob(s, w).reqs[id].next == s.reqs[id].next
    ensures p' <= p && IsAt(NextJob(s, w).queue, id, p')
    ensures Scheduler.At(s, s.workers[w].source, id) == Take ==> p' < p
  {
    if Scheduler.At(s, s.workers[w].source, id) == Take {
      p' := Fairness(s, w, id, p);
      var at := WalksShape(s, w);
    } else {
      var at, s1 := WalksPlace(s, w, id, p);
      p' := UnfinishedPlace(s1.reqs, s1.queue, at);
    }
  }

  lemma WalksPlace<Id>(s: State<Id>, w: nat, id: Id, p: nat) returns (p': nat, s1: State<Id>)
    requires Inv(s) && w < |s.workers| && s.workers[w].phase.Idle? && IsAt(s.queue, id, p)
    requires id in Walks(s, w).reqs && Walks(s, w).reqs[id].next == s.reqs[id].next
    ensures s1 == Walks(s, w) && p' <= p && IsAt(s1.queue, id, p') && s1.reqs[id].next < |s1.reqs[id].tiles|
  {
    s1 := Walks(s, w);
    p' := p;
    var at := WalksShape(s, w);
    WalksGrows(s, w, id);
    if Found(s1, w) {
      assert at != p;
      p' := MovedPlace(s.queue, at, id, p);
    }
  }

  lemma MovedPlace<Id>(q: seq<Id>, at: nat, id: Id, p: nat) returns (p': nat)
    requires IsAt(q, id, p) && at < |q| && at != p
    ensures p' <= p && IsAt(MovedToEnd(q, at), id, p')
  {
    p' := if at < p then p - 1 else p;
    assert MovedToEnd(q, at)[p'] == q[p];
  }

  /** As long as `id` stays queued and none of its tiles is taken, no step puts a request ahead
      of it, and each poll that passes it over although it could be served puts one behind it. */
  lemma StepPlace<Id>(s: State<Id>, step: Step<Id>, id: Id, p: nat) returns (p': nat)
    requires Inv(s) && Enabled(s, step) && IsAt(s.queue, id, p)
    requires var s' := Apply(s, step); id in s'.queue && id in s'.reqs && s'.reqs[id].next == s.reqs[id].next
    ensures p' <= p && IsAt(Apply(s, step).queue, id, p')
    ensures PassesOver(s, step, id) ==> p' < p
  {
    p' := p;
    match step
    case Poll(w) => p' := PollPlace(s, w, id, p);
    case Abort(gone) => if gone in s.queue { p' := WithoutPlace(s.queue, gone, id, p); }
    case Add(_, _, _, _) =>
    case _ => assert Apply(s, step).queue == s.queue;
  }

  /** A poll by a worker that could take the next tile of `id`. */
  predicate PassesOver<Id(==)>(s: State<Id>, step: Step<Id>, id: Id) {
    step.Poll? && step.w < |s.workers| && id in s.reqs && Scheduler.At(s, s.workers[step.w].source, id) == Take
  }

  ghost function Overtaken<Id>(s: State<Id>, steps: seq<Step<Id>>, id: Id): nat
    requires Inv(s) && CanRun(s, steps)
    decreases |steps|
  {
    if steps == [] then 0
    else
      StepKeeps(s, steps[0]);
      (if PassesOver(s, steps[0], id) then 1 else 0) + Overtaken(Apply(s, steps[0]), steps[1..], id)
  }

  /** A request that has left the queue does not come back. */
  lemma StaysOut<Id>(s: State<Id>, step: Step<Id>, id: Id)
    requires Sound(s) && Enabled(s, step) && id in s.reqs && id !in s.queue
    ensures id !in Apply(s, step).queue
  {
    match step
    case Poll(w) =>
      var at := WalksShape(s, w);
      if Found(Walks(s, w), w) { MoveToEnd(s.queue, at); }
    case _ =>
  }

  lemma {:induction false} OutForGood<Id>(s: State<Id>, steps: seq<Step<Id>>, id: Id)
    requires Inv(s) && CanRun(s, steps) && id in s.reqs && id !in s.queue
    ensures id !in RunTo(s, steps).queue
    decreases |steps|
  {
    if steps != [] {
      StepKeeps(s, steps[0]);
      StaysOut(s, steps[0], id);
      StepGrows(s, steps[0], id);
      OutForGood(Apply(s, steps[0]), steps[1..], id);
    }
  }

  /** A request is passed over at most as often as there were requests ahead of it. */
  lemma {:induction false} WaitingBound<Id>(s: State<Id>, steps: seq<Step<Id>>, id: Id, p: nat) returns (p': nat)
    requires Inv(s) && CanRun(s, steps) && IsAt(s.queue, id, p)
    requires var e := RunTo(s, steps); id in e.queue && e.reqs[id].next == s.reqs[id].next
    ensures IsAt(RunTo(s, steps).queue, id, p') && Overtaken(s, steps, id) + p' <= p
    decreases |steps|
  {
    p' := p;
    if steps != [] {
      StepKeeps(s, steps[0]);
      var s1 := Apply(s, steps[0]);
      StepGrows(s, steps[0], id);
      RunGrows(s1, steps[1..], id);
      if id !in s1.queue { OutForGood(s1, steps[1..], id); }
      var p1 := StepPlace(s, steps[0], id, p);
      p' := WaitingBound(s1, steps[1..], id, p1);
    }
  }

  // ---- deadlock freedom -------------------------------------------------

  predicate AllIdle<Id(==)>(s: State<Id>) { forall w :: 0 <= w < |s.workers| ==> s.workers[w].phase.Idle? }

  lemma {:induction false} NoneHeld<Id>(ws: seq<Worker<Id>>, id: Id)
    requires forall w :: 0 <= w < |ws| ==> ws[w].phase.Idle?
    ensures Held(ws, id) == multiset{}
  {
    if ws != [] { NoneHeld(ws[..|ws| - 1], id); }
  }

  ghost predicate WaitsForLost<Id>(s: State<Id>, src: Source, r: Request) {
    Serves(src, r) && r.next < |r.tiles| && NextKey(src, r) in LostKeys(s.lost)
  }

  /** When nobody works and a poll finds nothing, each request that its source serves is done,
      except for exactly those that lost a tile, and those whose next tile was lost by another
      job that asked for the same key. */
  lemma Settled<Id>(s: State<Id>, w: nat, id: Id)
    requires Inv(s) && AllIdle(s) && w < |s.workers| && !Found(NextJob(s, w), w) && id in s.reqs
    requires Serves(s.workers[w].source, s.reqs[id])
    ensures var s' := NextJob(s, w);
            && id in s'.reqs && s'.lost == s.lost && AllIdle(s')
            && var r := s'.reqs[id];
               && (id in s'.queue ==> WaitsForLost(s', s.workers[w].source, r))
               && (r.status == Success <==> r.status != Aborted && id !in s'.queue && LostTiles(s.lost, id) == multiset{})
  {
    var s' := NextJob(s, w);
    NothingToDo(s, w);
    NextJobKeeps(s, w);
    WalksGrows(s, w, id);
    NoneHeld(s.workers, id);
    var r := s'.reqs[id];
    assert RequestFits(s', id);
    CountResults(r, multiset{}, LostTiles(s.lost, id));
    if id in s'.queue {
      assert Waits(s', s.workers[w].source, r);
      assert !HeldBy(s'.workers, NextKey(s.workers[w].source, r));
    }
  }

  lemma PollKeepsBusy<Id>(s: State<Id>, v: nat, w: nat)
    requires Sound(s) && Enabled(s, Poll(v)) && w < |s.workers|
    ensures |NextJob(s, v).workers| == |s.workers|
    ensures !s.workers[w].phase.Idle? ==> !NextJob(s, v).workers[w].phase.Idle?
  {
    var at := WalksShape(s, v);
  }

  lemma {:induction false} PollsKeepBusy<Id>(s: State<Id>, steps: seq<Step<Id>>, w: nat)
    requires Inv(s) && CanRun(s, steps) && (forall i :: 0 <= i < |steps| ==> steps[i].Poll?)
    requires w < |s.workers|
    ensures w < |RunTo(s, steps).workers|
    ensures !s.workers[w].phase.Idle? ==> !RunTo(s, steps).workers[w].phase.Idle?
    decreases |steps|
  {
    if steps != [] {
      StepKeeps(s, steps[0]);
      PollKeepsBusy(s, steps[0].w, w);
      PollsKeepBusy(NextJob(s, steps[0].w), steps[1..], w);
    }
  }

  /** A poll that finds nothing leaves what its source serves done, if nothing was lost. */
  lemma PollSettles<Id>(s: State<Id>, w: nat, id: Id)
    requires Inv(s) && s.lost == [] && AllIdle(s) && w < |s.workers| && !Found(NextJob(s, w), w) && id in s.reqs
    requires Serves(s.workers[w].source, s.reqs[id])
    ensures id in NextJob(s, w).reqs && NextJob(s, w).reqs[id].status in {Success, Aborted}
  {
    Settled(s, w, id);
  }

  lemma PollShape<Id>(s: State<Id>, w: nat)
    requires Inv(s) && Enabled(s, Poll(w)) && !Found(NextJob(s, w), w)
    ensures var s' := NextJob(s, w); s'.workers == s.workers && s'.lost == s.lost && s'.reqs.Keys == s.reqs.Keys
  {
    var at := WalksShape(s, w);
  }

  lemma FoundNothingAt<Id>(s: State<Id>, w: nat, s1: State<Id>, rest: seq<Step<Id>>)
    requires Sound(s) && Enabled(s, Poll(w)) && s1 == NextJob(s, w) && Inv(s1) && CanRun(s1, rest)
    requires (forall j :: 0 <= j < |rest| ==> rest[j].Poll?) && AllIdle(RunTo(s1, rest))
    ensures !Found(s1, w)
  {
    var at := WalksShape(s, w);
    PollsKeepBusy(s1, rest, w);
  }

  lemma FoundNothing<Id>(s: State<Id>, steps: seq<Step<Id>>)
    requires Inv(s) && CanRun(s, steps) && steps != [] && forall j :: 0 <= j < |steps| ==> steps[j].Poll?
    requires AllIdle(RunTo(s, steps))
    ensures !Found(NextJob(s, steps[0].w), steps[0].w)
  {
    StepKeeps(s, steps[0]);
    FoundNothingAt(s, steps[0].w, Apply(s, steps[0]), steps[1..]);
  }

  predicate OnlyPolls<Id>(steps: seq<Step<Id>>) { forall j :: 0 <= j < |steps| ==> steps[j].Poll? }

  /** What is left after a first poll that found nothing. */
  lemma QuietPoll<Id>(s: State<Id>, steps: seq<Step<Id>>, rest: seq<Step<Id>>, id: Id) returns (s1: State<Id>)
    requires Inv(s) && s.lost == [] && CanRun(s, steps) && AllIdle(s) && AllIdle(RunTo(s, steps))
    requires steps != [] && rest == steps[1..] && OnlyPolls(steps) && id in s.reqs
    ensures OnlyPolls(rest) && s1 == NextJob(s, steps[0].w) && !Found(s1, steps[0].w)
    ensures Inv(s1) && CanRun(s1, rest) && RunTo(s1, rest) == RunTo(s, steps)
    ensures s1.lost == [] && AllIdle(s1) && s1.workers == s.workers && id in s1.reqs
    ensures s1.reqs[id].mapId == s.reqs[id].mapId && s1.reqs[id].layerId == s.reqs[id].layerId
  {
    s1 := Apply(s, steps[0]);
    StepKeeps(s, steps[0]);
    FoundNothing(s, steps);
    PollShape(s, steps[0].w);
    WalksGrows(s, steps[0].w, id);
  }

  lemma SettledStays<Id>(s: State<Id>, steps: seq<Step<Id>>, id: Id)
    requires Inv(s) && CanRun(s, steps) && id in s.reqs && s.reqs[id].status in {Success, Aborted}
    ensures id in RunTo(s, steps).reqs && RunTo(s, steps).reqs[id].status in {Success, Aborted}
  {
    DoneIsFinal(s, steps, id);
  }

  /** The first poll is the one of a source that serves the request. */
  lemma PollSettlesNow<Id>(s: State<Id>, w: nat, s1: State<Id>, rest: seq<Step<Id>>, id: Id)
    requires Inv(s) && s.lost == [] && AllIdle(s) && w < |s.workers| && s1 == NextJob(s, w) && !Found(s1, w) && id in s.reqs
    requires Serves(s.workers[w].source, s.reqs[id]) && Inv(s1) && CanRun(s1, rest)
    ensures id in RunTo(s1, rest).reqs && RunTo(s1, rest).reqs[id].status in {Success, Aborted}
  {
    PollSettles(s, w, id);
    SettledStays(s1, rest, id);
  }

  lemma {:induction false} PollSettlesLater<Id>(s: State<Id>, steps: seq<Step<Id>>, i: nat, w: nat, id: Id)
    requires Inv(s) && s.lost == [] && CanRun(s, steps) && AllIdle(s) && AllIdle(RunTo(s, steps))
    requires OnlyPolls(steps) && i < |steps| && steps[i] == Poll(w)
    requires id in s.reqs && w < |s.workers| && Serves(s.workers[w].source, s.reqs[id])
    ensures id in RunTo(s, steps).reqs && RunTo(s, steps).reqs[id].status in {Success, Aborted}
    decreases i
  {
    var rest := steps[1..];
    var s1 := QuietPoll(s, steps, rest, id);
    if i == 0 {
      PollSettlesNow(s, w, s1, rest, id);
    } else {
      PollAfter(steps, rest, i, i - 1);
      PollSettlesLater(s1, rest, i - 1, w, id);
    }
  }

  lemma PollAfter<Id>(steps: seq<Step<Id>>, rest: seq<Step<Id>>, i: nat, before: nat)
    requires i == before + 1 < |steps| && rest == steps[1..]
    ensures before < |rest| && rest[before] == steps[i]
  {}

  /** Deadlock freedom: if nothing was lost, nobody works, and polling every source found
      nothing, then every request served by one of them is a success, or was aborted. */
  lemma DeadlockFree<Id>(s: State<Id>, steps: seq<Step<Id>>, i: nat, id: Id)
    requires Inv(s) && s.lost == [] && CanRun(s, steps) && AllIdle(s) && AllIdle(RunTo(s, steps))
    requires OnlyPolls(steps) && i < |steps| && id in s.reqs && steps[i].w < |s.workers| && Serves(s.workers[steps[i].w].source, s.reqs[id])
    ensures id in RunTo(s, steps).reqs && RunTo(s, steps).reqs[id].status in {Success, Aborted}
  {
    PollSettlesLater(s, steps, i, steps[i].w, id);
  }

  // ---- what a lost key blocks -------------------------------------------

  /** A key that is being fetched or was lost is not cached. */
  ghost predicate Uncached<Id>(s: State<Id>) { NotCached(s.workers, LostKeys(s.lost), s.cache) }

  ghost predicate NotCached<Id>(ws: seq<Worker<Id>>, lostKeys: set<Key>, cache: set<Key>) {
    && (forall w :: Busy(ws, w) && !ws[w].phase.Stored? ==> ws[w].phase.job.key !in cache)
    && (forall k :: k in lostKeys ==> k !in cache)
  }

  lemma MoveUncached<Id>(ws: seq<Worker<Id>>, w: nat, x: Worker<Id>, lostKeys: set<Key>, cache: set<Key>)
    requires NotCached(ws, lostKeys, cache) && w < |ws| && (x.phase.Idle? || x.phase.Stored? || x.phase.job.key !in cache)
    ensures NotCached(ws[w := x], lostKeys, cache)
  {
    forall v | Busy(ws[w := x], v) && v != w ensures Busy(ws, v) {}
  }

  lemma PutUncached<Id>(ws: seq<Worker<Id>>, w: nat, x: Worker<Id>, inProgress: set<Key>, lostKeys: set<Key>, cache: set<Key>)
    requires NotCached(ws, lostKeys, cache) && Exclusive(ws, inProgress, lostKeys) && Busy(ws, w) && x.phase.Stored?
    ensures NotCached(ws[w := x], lostKeys, cache + {ws[w].phase.job.key})
  {
    forall v | Busy(ws[w := x], v) && v != w ensures Busy(ws, v) {}
  }

  lemma FailUncached<Id>(s: State<Id>, w: nat)
    requires Sound(s) && Uncached(s) && Enabled(s, Fail(w))
    ensures Uncached(Apply(s, Fail(w)))
  {
    var s', job := Apply(s, Fail(w)), s.workers[w].phase.job;
    assert Busy(s.workers, w);
    LostAppend(s.lost, job, job.req);
    MoveUncached(s.workers, w, s'.workers[w], LostKeys(s.lost) + {job.key}, s.cache);
  }

  lemma PollUncached<Id>(s: State<Id>, w: nat)
    requires Known(s) && Uncached(s) && Enabled(s, Poll(w))
    ensures Uncached(NextJob(s, w))
  {
    var at := WalksShape(s, w);
    var s' := NextJob(s, w);
    if Found(s', w) {
      assert s'.workers == s.workers[w := s'.workers[w]];
      MoveUncached(s.workers, w, s'.workers[w], LostKeys(s.lost), s.cache);
    }
  }

  lemma UncachedKeeps<Id>(s: State<Id>, step: Step<Id>)
    requires Sound(s) && Exclusive(s.workers, s.inProgress, LostKeys(s.lost)) && Uncached(s) && Enabled(s, step)
    ensures Uncached(Apply(s, step))
  {
    match step
    case Poll(w) => PollUncached(s, w);
    case Fail(w) => FailUncached(s, w);
    case Put(w) =>
      assert Busy(s.workers, w);
      PutUncached(s.workers, w, Apply(s, step).workers[w], s.inProgress, LostKeys(s.lost), s.cache);
    case Fetch(w) =>
      assert Busy(s.workers, w);
      MoveUncached(s.workers, w, Apply(s, step).workers[w], LostKeys(s.lost), s.cache);
    case Complete(w) => MoveUncached(s.workers, w, Apply(s, step).workers[w], LostKeys(s.lost), s.cache);
    case _ =>
  }

  /** Every source that serves `r` would have to fetch a key that was lost. */
  ghost predicate Blocked<Id>(ws: seq<Worker<Id>>, r: Request, lostKeys: set<Key>) {
    && r.next < |r.tiles|
    && forall w :: 0 <= w < |ws| && Serves(ws[w].source, r) ==> NextKey(ws[w].source, r) in lostKeys
  }

  ghost predicate Stuck<Id>(s: State<Id>, id: Id) {
    id in s.queue && id in s.reqs && Blocked(s.workers, s.reqs[id], LostKeys(s.lost))
  }

  lemma {:induction false} ScanPasses<Id>(s: State<Id>, w: nat, pos: nat, served: bool, id: Id)
    requires Known(s) && w < |s.workers| && pos <= |s.queue| && id in s.reqs && Scheduler.At(s, s.workers[w].source, id) == Pass
    ensures var s' := Scan(s, w, pos, served).0; id in s'.reqs && s'.reqs[id] == s.reqs[id]
    decreases |s.queue| - pos
  {
    if pos < |s.queue| {
      match Scheduler.At(s, s.workers[w].source, s.queue[pos])
      case Pass => ScanPasses(s, w, pos + 1, served, id);
      case Cached => ScanPasses(Serve(s, s.queue[pos]), w, pos + 1, true, id);
      case Take =>
    }
  }

  lemma {:induction false} WalksPasses<Id>(s: State<Id>, w: nat, id: Id)
    requires Known(s) && w < |s.workers| && s.workers[w].phase.Idle? && id in s.reqs && Scheduler.At(s, s.workers[w].source, id) == Pass
    ensures id in Walks(s, w).reqs && Walks(s, w).reqs[id] == s.reqs[id]
    decreases Undispatched(s.reqs, s.queue)
  {
    var (s', served) := Scan(s, w, 0, false);
    var at := ScanShape(s, w, 0, false);
    ScanPasses(s, w, 0, false, id);
    ScanFalls(s, w, 0, false);
    if served && !Found(s', w) { WalksPasses(s', w, id); }
  }

  /** Sources stay, and lost keys stay lost. */
  lemma StaysBlocked<Id>(ws: seq<Worker<Id>>, ws': seq<Worker<Id>>, r: Request, r': Request, lostKeys: set<Key>, lostKeys': set<Key>)
    requires Blocked(ws, r, lostKeys) && lostKeys <= lostKeys'
    requires |ws'| == |ws| && forall v :: 0 <= v < |ws| ==> ws'[v].source == ws[v].source
    requires r'.next == r.next && r'.tiles == r.tiles && r'.mapId == r.mapId && r'.layerId == r.layerId
    ensures Blocked(ws', r', lostKeys')
  {
    forall w | 0 <= w < |ws'| && Serves(ws'[w].source, r') ensures NextKey(ws'[w].source, r') in lostKeys' {
      assert Serves(ws[w].source, r);
    }
  }

  lemma StuckWorker<Id>(s: State<Id>, w: nat, x: Phase<Id>, id: Id)
    requires Stuck(s, id) && w < |s.workers|
    ensures Blocked(s.workers[w := s.workers[w].(phase := x)], s.reqs[id], LostKeys(s.lost))
  {
    StaysBlocked(s.workers, s.workers[w := s.workers[w].(phase := x)], s.reqs[id], s.reqs[id], LostKeys(s.lost), LostKeys(s.lost));
  }

  /** What a failure leaves. */
  lemma FailParts<Id>(s: State<Id>, w: nat)
    requires Sound(s) && Enabled(s, Fail(w))
    ensures var s' := Apply(s, Fail(w));
            && s'.reqs == s.reqs && s'.queue == s.queue && LostKeys(s.lost) <= LostKeys(s'.lost)
            && s'.workers == s.workers[w := s.workers[w].(phase := Idle)]
  {
    var job := s.workers[w].phase.job;
    LostAppend(s.lost, job, job.req);
  }

  lemma StuckFail<Id>(s: State<Id>, w: nat, id: Id)
    requires Sound(s) && Stuck(s, id) && Enabled(s, Fail(w))
    ensures Stuck(Apply(s, Fail(w)), id)
  {
    var s' := Apply(s, Fail(w));
    FailParts(s, w);
    StaysBlocked(s.workers, s'.workers, s.reqs[id], s'.reqs[id], LostKeys(s.lost), LostKeys(s'.lost));
  }

  lemma StuckComplete<Id>(s: State<Id>, w: nat, id: Id)
    requires Inv(s) && Enabled(s, Complete(w)) && Stuck(s, id)
    ensures s.workers[w].phase.job.req in s.reqs && Stuck(CompleteJob(s, w), id)
  {
    assert Busy(s.workers, w);
    var s' := CompleteJob(s, w);
    StaysBlocked(s.workers, s'.workers, s.reqs[id], s'.reqs[id], LostKeys(s.lost), LostKeys(s.lost));
  }

  lemma StuckStep<Id>(s: State<Id>, step: Step<Id>, id: Id)
    requires Inv(s) && Uncached(s) && Enabled(s, step) && Stuck(s, id)
    ensures var s' := Apply(s, step); Stuck(s', id) || (id in s'.reqs && s'.reqs[id].status == Aborted)
  {
    match step
    case Poll(w) => StuckPoll(s, w, id);
    case Complete(w) => StuckComplete(s, w, id);
    case Fail(w) => StuckFail(s, w, id);
    case Fetch(w) => StuckWorker(s, w, Fetched(s.workers[w].phase.job), id);
    case Put(w) => StuckWorker(s, w, Stored(s.workers[w].phase.job), id);
    case _ =>
  }

  lemma StuckIsPassed<Id>(s: State<Id>, w: nat, id: Id)
    requires Inv(s) && Uncached(s) && w < |s.workers| && Stuck(s, id)
    ensures Scheduler.At(s, s.workers[w].source, id) == Pass
  {
    var src, r := s.workers[w].source, s.reqs[id];
    if Serves(src, r) { assert NextKey(src, r) in LostKeys(s.lost); }
  }

  lemma StuckPoll<Id>(s: State<Id>, w: nat, id: Id)
    requires Inv(s) && Uncached(s) && Enabled(s, Poll(w)) && Stuck(s, id)
    ensures Stuck(NextJob(s, w), id)
  {
    StuckIsPassed(s, w, id);
    WalksPasses(s, w, id);
    var at := WalksShape(s, w);
    if Found(Walks(s, w), w) { MoveToEnd(s.queue, at); }
    StaysBlocked(s.workers, NextJob(s, w).workers, s.reqs[id], s.reqs[id], LostKeys(s.lost), LostKeys(s.lost));
  }

  /** A failed fetch blocks, for good, every request that gets to the same key: it is never
      a success in any run. It can only be aborted. */
  lemma {:induction false} StuckForever<Id>(s: State<Id>, steps: seq<Step<Id>>, id: Id)
    requires Inv(s) && Uncached(s) && CanRun(s, steps) && Stuck(s, id)
    ensures var e := RunTo(s, steps); id in e.reqs && e.reqs[id].status in {Open, Aborted}
    decreases |steps|
  {
    if steps == [] {
      assert RequestFits(s, id);
      CountResults(s.reqs[id], Held(s.workers, id), LostTiles(s.lost, id));
    } else {
      StepKeeps(s, steps[0]);
      UncachedKeeps(s, steps[0]);
      StuckStep(s, steps[0], id);
      var s1 := Apply(s, steps[0]);
      if Stuck(s1, id) { StuckForever(s1, steps[1..], id); } else { DoneIsFinal(s1, steps[1..], id); }
    }
  }

  lemma {:induction false} UncachedRun<Id>(s: State<Id>, steps: seq<Step<Id>>)
    requires Inv(s) && Uncached(s) && CanRun(s, steps)
    ensures Uncached(RunTo(s, steps))
    decreases |steps|
  {
    if steps != [] {
      StepKeeps(s, steps[0]);
      UncachedKeeps(s, steps[0]);
      UncachedRun(Apply(s, steps[0]), steps[1..]);
    }
  }

  /** So wherever a run from nothing has got to: a request that is stuck there is never a
      success, however the run goes on. */
  lemma BlockedByFailure<Id>(s: State<Id>, before: seq<Step<Id>>, after: seq<Step<Id>>, id: Id)
    requires Initial(s) && CanRun(s, before) && CanRun(RunTo(s, before), after)
    requires Stuck(RunTo(s, before), id)
    ensures var e := RunTo(RunTo(s, before), after); id in e.reqs && e.reqs[id].status in {Open, Aborted}
  {
    InitialInv(s);
    assert Uncached(s);
    UncachedRun(s, before);
    StuckForever(RunTo(s, before), after, id);
  }
}
