/** Steps of the service as a whole, in any order, and what every reachable state keeps. */
module SchedulerRuns {
  import opened Scheduler

  datatype Step<Id> =
    | Add(id: Id, mapId: string, layerId: string, tiles: seq<nat>)
    | Poll(w: nat)
    | Fetch(w: nat)
    | Put(w: nat)
    | Complete(w: nat)
    | Fail(w: nat)
    | Abort(id: Id)
    | Evict(key: Key)

  predicate Enabled<Id(==)>(s: State<Id>, step: Step<Id>) {
    match step
    case Add(id, _, _, _) => id !in s.reqs
    case Poll(w) => w < |s.workers| && s.workers[w].phase.Idle?
    case Fetch(w) => w < |s.workers| && s.workers[w].phase.Dispatched?
    case Put(w) => w < |s.workers| && s.workers[w].phase.Fetched?
    case Complete(w) => w < |s.workers| && s.workers[w].phase.Stored?
    case Fail(w) => w < |s.workers| && (s.workers[w].phase.Dispatched? || s.workers[w].phase.Fetched?)
    case Abort(id) => id in s.reqs
    case Evict(_) => true
  }

  function SetPhase<Id(==)>(s: State<Id>, w: nat, p: Phase<Id>): State<Id>
    requires w < |s.workers|
  {
    s.(workers := s.workers[w := s.workers[w].(phase := p)])
  }

  function Without<Id(==)>(queue: seq<Id>, id: Id): (q: seq<Id>)
    ensures forall i :: i in q ==> i in queue && i != id
    ensures forall i :: i in queue && i != id ==> i in q
  {
    if queue == [] then []
    else
      var front, last := Without(queue[..|queue| - 1], id), queue[|queue| - 1];
      if last == id then front else front + [last]
  }

  /** A request that is already done when added is only notified. */
  function AddRequest<Id(==)>(s: State<Id>, id: Id, r: Request): State<Id> {
    if r.status != Open then s.(reqs := s.reqs[id := r.(done := r.done + [r.status])])
    else s.(reqs := s.reqs[id := r], queue := s.queue + [id])
  }

  /** Aborting has an effect only while the request is queued. */
  function AbortRequest<Id(==)>(s: State<Id>, id: Id): State<Id>
    requires id in s.reqs
  {
    if id !in s.queue then s
    else s.(reqs := s.reqs[id := SetStatus(s.reqs[id], Aborted)], queue := Without(s.queue, id))
  }

  function CompleteJob<Id(==)>(s: State<Id>, w: nat): State<Id>
    requires w < |s.workers| && s.workers[w].phase.Stored? && s.workers[w].phase.job.req in s.reqs
  {
    var job := s.workers[w].phase.job;
    var s' := SetPhase(s, w, Idle);
    s'.(inProgress := s.inProgress - {job.key}, reqs := s.reqs[job.req := NotifyResult(s.reqs[job.req], job.key.tile)])
  }

  function Apply<Id(==)>(s: State<Id>, step: Step<Id>): State<Id>
    requires Known(s) && JobsKnown(s.reqs.Keys, s.workers, s.lost) && Enabled(s, step)
  {
    match step
    case Add(id, mapId, layerId, tiles) => AddRequest(s, id, NewRequest(mapId, layerId, tiles))
    case Poll(w) => NextJob(s, w)
    case Fetch(w) => SetPhase(s, w, Fetched(s.workers[w].phase.job)).(asked := s.asked + [s.workers[w].phase.job.key])
    case Put(w) => SetPhase(s, w, Stored(s.workers[w].phase.job)).(cache := s.cache + {s.workers[w].phase.job.key})
    case Complete(w) => CompleteJob(s, w)
    case Fail(w) =>
      var p := s.workers[w].phase;
      SetPhase(s, w, Idle).(lost := s.lost + [p.job], asked := if p.Dispatched? then s.asked + [p.job.key] else s.asked)
    case Abort(id) => AbortRequest(s, id)
    case Evict(key) => s.(cache := s.cache - {key})
  }

  // ---- the invariant ----------------------------------------------------

  predicate Busy<Id(==)>(ws: seq<Worker<Id>>, w: int) { 0 <= w < |ws| && !ws[w].phase.Idle? }

  ghost predicate JobsKnown<Id>(ids: set<Id>, ws: seq<Worker<Id>>, lost: seq<Job<Id>>) {
    && (forall w :: Busy(ws, w) ==> ws[w].phase.job.req in ids)
    && (forall i :: 0 <= i < |lost| ==> lost[i].req in ids)
  }

  predicate Distinct<Id(==)>(q: seq<Id>) { forall i, j :: 0 <= i < j < |q| ==> q[i] != q[j] }

  function LostKeys<Id>(lost: seq<Job<Id>>): set<Key> {
    if lost == [] then {} else LostKeys(lost[..|lost| - 1]) + {lost[|lost| - 1].key}
  }

  ghost predicate HeldBy<Id>(ws: seq<Worker<Id>>, k: Key) { exists w :: Busy(ws, w) && ws[w].phase.job.key == k }

  /** No key is worked on twice; what is in progress is held by a worker or lost. */
  ghost predicate Exclusive<Id>(ws: seq<Worker<Id>>, inProgress: set<Key>, lostKeys: set<Key>) {
    && (forall v, w :: Busy(ws, v) && Busy(ws, w) && v != w ==> ws[v].phase.job.key != ws[w].phase.job.key)
    && (forall w :: Busy(ws, w) ==> ws[w].phase.job.key in inProgress && ws[w].phase.job.key !in lostKeys)
    && (forall k :: k in inProgress ==> k in lostKeys || HeldBy(ws, k))
    && lostKeys <= inProgress
  }

  function JobTiles<Id(==)>(p: Phase<Id>, id: Id): multiset<nat> {
    if !p.Idle? && p.job.req == id then multiset{p.job.key.tile} else multiset{}
  }

  /** Tiles of request `id` that workers hold, and that were lost. */
  function Held<Id(==)>(ws: seq<Worker<Id>>, id: Id): multiset<nat> {
    if ws == [] then multiset{} else Held(ws[..|ws| - 1], id) + JobTiles(ws[|ws| - 1].phase, id)
  }

  function LostTiles<Id(==)>(lost: seq<Job<Id>>, id: Id): multiset<nat> {
    if lost == [] then multiset{}
    else LostTiles(lost[..|lost| - 1], id) + (if lost[|lost| - 1].req == id then multiset{lost[|lost| - 1].key.tile} else multiset{})
  }

  /** What has been handed out of a request is delivered, held, or lost. */
  predicate Balanced(r: Request, held: multiset<nat>, lost: multiset<nat>) {
    && r.next <= |r.tiles| && r.results == |r.delivered|
    && multiset(r.tiles[..r.next]) == multiset(r.delivered) + held + lost
  }

  /** Status and done callbacks, given whether the request is queued. */
  predicate StatusFits(r: Request, queued: bool) {
    match r.status
    case Open => r.done == [] && r.results != |r.tiles| && (queued || r.next == |r.tiles|)
    case Success => r.done == [Success] && r.results == |r.tiles|
    case Aborted => r.done == [Aborted] && r.next < |r.tiles| && !queued
    case _ => false
  }

  ghost predicate RequestFits<Id>(s: State<Id>, id: Id)
    requires id in s.reqs
  {
    && Balanced(s.reqs[id], Held(s.workers, id), LostTiles(s.lost, id))
    && StatusFits(s.reqs[id], id in s.queue)
  }

  /** Holds throughout, also inside nextJob. */
  ghost predicate Inner<Id>(s: State<Id>) {
    && Known(s) && Distinct(s.queue)
    && JobsKnown(s.reqs.Keys, s.workers, s.lost)
    && Exclusive(s.workers, s.inProgress, LostKeys(s.lost))
    && (forall id :: id in s.reqs ==> RequestFits(s, id))
  }

  /** Holds between steps: every queued request has tiles left. */
  ghost predicate Inv<Id>(s: State<Id>) {
    Inner(s) && forall id :: id in s.queue ==> s.reqs[id].next < |s.reqs[id].tiles|
  }

  // ---- inside nextJob ---------------------------------------------------

  lemma AddBoth(a: multiset<nat>, j: multiset<nat>, b: multiset<nat>, x: multiset<nat>, l: multiset<nat>)
    requires a + j == b + x
    ensures (a + l) + j == (b + l) + x
  {
    forall t: nat ensures ((a + l) + j)[t] == ((b + l) + x)[t] {
      assert (a + j)[t] == (b + x)[t];
    }
  }

  lemma {:induction false} HeldUpdate<Id>(ws: seq<Worker<Id>>, w: nat, x: Worker<Id>, id: Id)
    requires w < |ws|
    ensures Held(ws[w := x], id) + JobTiles(ws[w].phase, id) == Held(ws, id) + JobTiles(x.phase, id)
    decreases |ws|
  {
    var n := |ws| - 1;
    var ws' := ws[w := x];
    if w == n {
      assert ws'[..n] == ws[..n];
    } else {
      HeldUpdate(ws[..n], w, x, id);
      assert ws'[..n] == ws[..n][w := x];
      AddBoth(Held(ws'[..n], id), JobTiles(ws[w].phase, id), Held(ws[..n], id), JobTiles(x.phase, id), JobTiles(ws[n].phase, id));
    }
  }

  lemma TakeOne(tiles: seq<nat>, n: nat)
    requires n < |tiles|
    ensures multiset(tiles[..n + 1]) == multiset(tiles[..n]) + multiset{tiles[n]}
  {
    assert tiles[..n + 1] == tiles[..n] + [tiles[n]];
  }

  /** As many results as tiles handed out, less those held or lost. */
  lemma CountResults(r: Request, held: multiset<nat>, lost: multiset<nat>)
    requires Balanced(r, held, lost)
    ensures r.results + |held| + |lost| == r.next
  {
    assert |multiset(r.tiles[..r.next])| == r.next;
    assert |multiset(r.delivered)| == r.results;
  }

  lemma DeliverNext(r: Request, held: multiset<nat>, lost: multiset<nat>)
    requires Balanced(r, held, lost) && r.next < |r.tiles|
    ensures Balanced(NotifyResult(r.(next := r.next + 1), r.tiles[r.next]), held, lost)
    ensures r.results < |r.tiles|
  {
    CountResults(r, held, lost);
    TakeOne(r.tiles, r.next);
  }

  lemma HandOut(r: Request, held: multiset<nat>, held': multiset<nat>, lost: multiset<nat>)
    requires Balanced(r, held, lost) && r.next < |r.tiles| && held' == held + multiset{r.tiles[r.next]}
    ensures Balanced(r.(next := r.next + 1), held', lost)
    ensures r.results < |r.tiles|
  {
    CountResults(r, held, lost);
    TakeOne(r.tiles, r.next);
  }

  lemma ServeRequest<Id>(s: State<Id>, id: Id, i: Id)
    requires id in s.queue && id in s.reqs && s.reqs[id].next < |s.reqs[id].tiles| && i in s.reqs && RequestFits(s, i)
    ensures RequestFits(Serve(s, id), i)
  {
    if i == id { DeliverNext(s.reqs[id], Held(s.workers, id), LostTiles(s.lost, id)); }
  }

  lemma ServeKeeps<Id>(s: State<Id>, id: Id)
    requires Inner(s) && id in s.queue && s.reqs[id].next < |s.reqs[id].tiles|
    ensures Inner(Serve(s, id))
  {
    var s' := Serve(s, id);
    assert s'.reqs.Keys == s.reqs.Keys;
    forall i | i in s'.reqs ensures RequestFits(s', i) {
      ServeRequest(s, id, i);
    }
  }

  ghost predicate Takes<Id>(s: State<Id>, w: nat, pos: nat) {
    && Known(s) && w < |s.workers| && s.workers[w].phase.Idle? && pos < |s.queue|
    && Scheduler.At(s, s.workers[w].source, s.queue[pos]) == Take
  }

  lemma HeldAfterDispatch<Id>(s: State<Id>, w: nat, pos: nat, i: Id)
    requires Takes(s, w, pos)
    ensures var id := s.queue[pos]; var r := s.reqs[id];
            Held(Dispatch(s, w, pos).workers, i) == Held(s.workers, i) + (if i == id then multiset{r.tiles[r.next]} else multiset{})
  {
    HeldUpdate(s.workers, w, Dispatch(s, w, pos).workers[w], i);
  }

  lemma DispatchOther<Id>(s: State<Id>, w: nat, pos: nat, i: Id)
    requires Takes(s, w, pos) && i in s.reqs && i != s.queue[pos] && RequestFits(s, i)
    ensures RequestFits(Dispatch(s, w, pos), i)
  {
    HeldAfterDispatch(s, w, pos, i);
    MoveToEnd(s.queue, pos);
  }

  lemma DispatchThis<Id>(s: State<Id>, w: nat, pos: nat)
    requires Takes(s, w, pos) && RequestFits(s, s.queue[pos])
    ensures RequestFits(Dispatch(s, w, pos), s.queue[pos])
  {
    var s', id := Dispatch(s, w, pos), s.queue[pos];
    HeldAfterDispatch(s, w, pos, id);
    MoveToEnd(s.queue, pos);
    HandOut(s.reqs[id], Held(s.workers, id), Held(s'.workers, id), LostTiles(s.lost, id));
  }

  lemma DispatchShape<Id>(s: State<Id>, w: nat, pos: nat)
    requires Takes(s, w, pos) && Distinct(s.queue)
    requires JobsKnown(s.reqs.Keys, s.workers, s.lost) && Exclusive(s.workers, s.inProgress, LostKeys(s.lost))
    ensures var s' := Dispatch(s, w, pos);
            && s'.reqs.Keys == s.reqs.Keys && Known(s') && Distinct(s'.queue)
            && JobsKnown(s'.reqs.Keys, s'.workers, s'.lost) && Exclusive(s'.workers, s'.inProgress, LostKeys(s'.lost))
  {
    var x := Dispatch(s, w, pos).workers[w];
    DispatchExclusive(s.workers, w, x, s.inProgress, LostKeys(s.lost));
    MoveToEnd(s.queue, pos);
    DispatchJobs(s.reqs.Keys, s.workers, w, x, s.lost);
  }

  lemma DispatchKeeps<Id>(s: State<Id>, w: nat, pos: nat)
    requires Inner(s) && Takes(s, w, pos)
    ensures Inner(Dispatch(s, w, pos))
  {
    DispatchShape(s, w, pos);
    var s' := Dispatch(s, w, pos);
    forall i | i in s'.reqs ensures RequestFits(s', i) {
      if i == s.queue[pos] { DispatchThis(s, w, pos); } else { DispatchOther(s, w, pos, i); }
    }
  }

  lemma DispatchJobs<Id>(ids: set<Id>, ws: seq<Worker<Id>>, w: nat, x: Worker<Id>, lost: seq<Job<Id>>)
    requires JobsKnown(ids, ws, lost) && w < |ws| && (x.phase.Idle? || x.phase.job.req in ids)
    ensures JobsKnown(ids, ws[w := x], lost)
  {
    forall v | Busy(ws[w := x], v) && v != w ensures Busy(ws, v) {}
  }

  lemma MoveToEnd<Id>(q: seq<Id>, pos: nat)
    requires pos < |q|
    ensures var q' := q[..pos] + q[pos + 1..] + [q[pos]]; (forall i :: i in q' <==> i in q) && (Distinct(q) ==> Distinct(q'))
  {
    var q' := q[..pos] + q[pos + 1..] + [q[pos]];
    forall i | i in q ensures i in q' {
      var k :| 0 <= k < |q| && q[k] == i;
      assert q'[if k < pos then k else if k == pos then |q| - 1 else k - 1] == i;
    }
  }

  lemma DispatchExclusive<Id>(ws: seq<Worker<Id>>, w: nat, x: Worker<Id>, inProgress: set<Key>, lostKeys: set<Key>)
    requires Exclusive(ws, inProgress, lostKeys) && w < |ws| && ws[w].phase.Idle? && !x.phase.Idle? && x.phase.job.key !in inProgress
    ensures Exclusive(ws[w := x], inProgress + {x.phase.job.key}, lostKeys)
  {
    var ws' := ws[w := x];
    assert Busy(ws', w);
    forall v | Busy(ws', v) && v != w ensures Busy(ws, v) && ws'[v] == ws[v] {}
    forall k | k in inProgress && k !in lostKeys ensures HeldBy(ws', k) {
      var v :| Busy(ws, v) && ws[v].phase.job.key == k;
      assert Busy(ws', v);
    }
  }

  lemma {:induction false} ScanKeeps<Id>(s: State<Id>, w: nat, pos: nat, served: bool)
    requires Inner(s) && w < |s.workers| && s.workers[w].phase.Idle? && pos <= |s.queue|
    ensures Inner(Scan(s, w, pos, served).0)
    decreases |s.queue| - pos
  {
    if pos < |s.queue| {
      match Scheduler.At(s, s.workers[w].source, s.queue[pos])
      case Pass => ScanKeeps(s, w, pos + 1, served);
      case Cached =>
        ServeKeeps(s, s.queue[pos]);
        ScanKeeps(Serve(s, s.queue[pos]), w, pos + 1, true);
      case Take => DispatchKeeps(s, w, pos);
    }
  }

  lemma {:induction false} WalksKeeps<Id>(s: State<Id>, w: nat)
    requires Inner(s) && w < |s.workers| && s.workers[w].phase.Idle?
    ensures Inner(Walks(s, w))
    decreases Undispatched(s.reqs, s.queue)
  {
    var (s', served) := Scan(s, w, 0, false);
    ScanKeeps(s, w, 0, false);
    ScanKeepsWorker(s, w, 0, false);
    ScanFalls(s, w, 0, false);
    if served && !Found(s', w) { WalksKeeps(s', w); }
  }

  lemma {:induction false} UnfinishedDistinct<Id>(reqs: map<Id, Request>, queue: seq<Id>)
    requires (forall id :: id in queue ==> id in reqs) && Distinct(queue)
    ensures Distinct(Unfinished(reqs, queue))
  {
    if queue != [] {
      UnfinishedDistinct(reqs, queue[..|queue| - 1]);
    }
  }

  /** nextJob keeps the invariant, and cleans up so that every queued request has tiles left. */
  lemma NextJobKeeps<Id>(s: State<Id>, w: nat)
    requires Inv(s) && w < |s.workers| && s.workers[w].phase.Idle?
    ensures Inv(NextJob(s, w))
  {
    var s', s'' := Walks(s, w), NextJob(s, w);
    WalksKeeps(s, w);
    UnfinishedDistinct(s'.reqs, s'.queue);
    forall i | i in s''.reqs ensures RequestFits(s'', i) {
      assert RequestFits(s', i);
    }
    forall i | i in s''.queue ensures s''.reqs[i].next < |s''.reqs[i].tiles| {
      assert RequestFits(s', i);
    }
  }

  // ---- the other steps --------------------------------------------------

  lemma {:induction false} NothingHeld<Id>(ids: set<Id>, ws: seq<Worker<Id>>, lost: seq<Job<Id>>, id: Id)
    requires JobsKnown(ids, ws, lost) && id !in ids
    ensures Held(ws, id) == multiset{} && LostTiles(lost, id) == multiset{}
    decreases |ws| + |lost|
  {
    if ws != [] {
      var n := |ws| - 1;
      forall w | Busy(ws[..n], w) ensures Busy(ws, w) {}
      NothingHeld(ids, ws[..n], lost, id);
      assert ws[n].phase.Idle? || Busy(ws, n);
    } else if lost != [] {
      NothingHeld(ids, ws, lost[..|lost| - 1], id);
    }
  }

  predicate IsNew(r: Request) {
    && r.done == [] && r.next == r.results == 0 && r.delivered == []
    && r.status == if r.tiles == [] then Success else Open
  }

  lemma AddRequestFits<Id>(s: State<Id>, id: Id, r: Request, i: Id)
    requires id !in s.reqs && id !in s.queue && IsNew(r) && JobsKnown(s.reqs.Keys, s.workers, s.lost)
    requires i == id || (i in s.reqs && RequestFits(s, i))
    ensures RequestFits(AddRequest(s, id, r), i)
  {
    if i == id {
      NothingHeld(s.reqs.Keys, s.workers, s.lost, id);
      assert r.tiles[..0] == [];
    }
  }

  lemma AddShape<Id>(s: State<Id>, id: Id, r: Request)
    requires Known(s) && Distinct(s.queue) && JobsKnown(s.reqs.Keys, s.workers, s.lost) && id !in s.reqs
    ensures var s' := AddRequest(s, id, r);
            && Known(s') && Distinct(s'.queue) && JobsKnown(s'.reqs.Keys, s'.workers, s'.lost)
            && s'.workers == s.workers && s'.inProgress == s.inProgress && s'.lost == s.lost
            && s'.queue == if r.status == Open then s.queue + [id] else s.queue
  {
    assert id !in s.queue;
  }

  lemma AddKeeps<Id>(s: State<Id>, id: Id, r: Request)
    requires Inv(s) && id !in s.reqs && IsNew(r)
    ensures Inv(AddRequest(s, id, r))
  {
    var s' := AddRequest(s, id, r);
    AddShape(s, id, r);
    forall i | i in s'.reqs ensures RequestFits(s', i) {
      AddRequestFits(s, id, r, i);
    }
    forall i | i in s'.queue ensures s'.reqs[i].next < |s'.reqs[i].tiles| {
      if i != id { assert i in s.queue && s'.reqs[i] == s.reqs[i]; }
    }
  }

  lemma {:induction false} WithoutDistinct<Id>(queue: seq<Id>, id: Id)
    requires Distinct(queue)
    ensures Distinct(Without(queue, id))
  {
    if queue != [] {
      var front, last := queue[..|queue| - 1], queue[|queue| - 1];
      WithoutDistinct(front, id);
      assert last !in front;
      assert last !in Without(front, id);
    }
  }

  lemma Cancel(a: multiset<nat>, b: multiset<nat>, j: multiset<nat>)
    requires a + j == b + j
    ensures a == b
  {
    forall t: nat ensures a[t] == b[t] { assert (a + j)[t] == (b + j)[t]; }
  }

  lemma AbortedFits(r: Request, held: multiset<nat>, lost: multiset<nat>)
    requires Balanced(r, held, lost) && StatusFits(r, true) && r.next < |r.tiles|
    ensures Balanced(SetStatus(r, Aborted), held, lost) && StatusFits(SetStatus(r, Aborted), false)
  {
    CountResults(r, held, lost);
  }

  lemma AbortKeeps<Id>(s: State<Id>, id: Id)
    requires Inv(s) && id in s.reqs
    ensures Inv(AbortRequest(s, id))
  {
    if id in s.queue {
      var s' := AbortRequest(s, id);
      WithoutDistinct(s.queue, id);
      assert s'.reqs.Keys == s.reqs.Keys;
      forall i | i in s'.reqs ensures RequestFits(s', i) {
        assert RequestFits(s, i);
        if i == id { AbortedFits(s.reqs[id], Held(s.workers, id), LostTiles(s.lost, id)); }
      }
    }
  }

  /** Changing phase but not job changes no account. */
  lemma SamePhaseJob<Id>(ws: seq<Worker<Id>>, w: nat, x: Worker<Id>, inProgress: set<Key>, lost: seq<Job<Id>>, ids: set<Id>)
    requires w < |ws| && !ws[w].phase.Idle? && !x.phase.Idle? && ws[w].phase.job == x.phase.job
    requires Exclusive(ws, inProgress, LostKeys(lost)) && JobsKnown(ids, ws, lost)
    ensures Exclusive(ws[w := x], inProgress, LostKeys(lost)) && JobsKnown(ids, ws[w := x], lost)
  {
    var ws' := ws[w := x];
    forall v | Busy(ws', v) ensures Busy(ws, v) && ws'[v].phase.job == ws[v].phase.job {}
    forall k | HeldBy(ws, k) ensures HeldBy(ws', k) {
      var v :| Busy(ws, v) && ws[v].phase.job.key == k;
      assert Busy(ws', v) && ws'[v].phase.job.key == k;
    }
  }

  lemma PhaseKeeps<Id>(s: State<Id>, s': State<Id>, w: nat)
    requires Inv(s) && w < |s.workers| && |s'.workers| == |s.workers|
    requires !s.workers[w].phase.Idle? && !s'.workers[w].phase.Idle? && s.workers[w].phase.job == s'.workers[w].phase.job
    requires s' == s.(workers := s.workers[w := s'.workers[w]], cache := s'.cache, asked := s'.asked)
    ensures Inv(s')
  {
    SamePhaseJob(s.workers, w, s'.workers[w], s.inProgress, s.lost, s.reqs.Keys);
    forall i | i in s'.reqs ensures RequestFits(s', i) {
      assert RequestFits(s, i);
      HeldUpdate(s.workers, w, s'.workers[w], i);
      Cancel(Held(s'.workers, i), Held(s.workers, i), JobTiles(s.workers[w].phase, i));
    }
  }

  /** The worker's key is nobody else's. */
  lemma ReleaseExclusive<Id>(ws: seq<Worker<Id>>, w: nat, x: Worker<Id>, inProgress: set<Key>, lostKeys: set<Key>)
    requires Exclusive(ws, inProgress, lostKeys) && Busy(ws, w) && x.phase.Idle?
    ensures Exclusive(ws[w := x], inProgress - {ws[w].phase.job.key}, lostKeys)
    ensures Exclusive(ws[w := x], inProgress, lostKeys + {ws[w].phase.job.key})
  {
    var ws', key := ws[w := x], ws[w].phase.job.key;
    forall v | Busy(ws', v) ensures Busy(ws, v) && v != w {}
    forall k | HeldBy(ws, k) && k != key ensures HeldBy(ws', k) {
      var v :| Busy(ws, v) && ws[v].phase.job.key == k;
      assert Busy(ws', v) && ws'[v].phase.job.key == k;
    }
  }

  lemma HeldReleased<Id>(ws: seq<Worker<Id>>, w: nat, x: Worker<Id>, id: Id)
    requires Busy(ws, w) && x.phase.Idle?
    ensures Held(ws, id) == Held(ws[w := x], id) + JobTiles(ws[w].phase, id)
  {
    HeldUpdate(ws, w, x, id);
  }

  /** A held tile is delivered; that completes only a request that was open and fully handed out. */
  lemma DeliverHeld(r: Request, tile: nat, held: multiset<nat>, held': multiset<nat>, lost: multiset<nat>, queued: bool)
    requires Balanced(r, held, lost) && StatusFits(r, queued) && held == held' + multiset{tile}
    ensures Balanced(NotifyResult(r, tile), held', lost) && StatusFits(NotifyResult(r, tile), queued)
  {
    CountResults(r, held, lost);
    assert |held| == |held'| + 1;
  }

  lemma CompleteRequest<Id>(s: State<Id>, w: nat, i: Id)
    requires Busy(s.workers, w) && s.workers[w].phase.Stored? && s.workers[w].phase.job.req in s.reqs && i in s.reqs && RequestFits(s, i)
    ensures RequestFits(CompleteJob(s, w), i)
  {
    var s', job := CompleteJob(s, w), s.workers[w].phase.job;
    HeldReleased(s.workers, w, s'.workers[w], i);
    if i == job.req {
      DeliverHeld(s.reqs[i], job.key.tile, Held(s.workers, i), Held(s'.workers, i), LostTiles(s.lost, i), i in s.queue);
    }
  }

  lemma CompleteKeeps<Id>(s: State<Id>, w: nat)
    requires Inv(s) && w < |s.workers| && s.workers[w].phase.Stored?
    ensures s.workers[w].phase.job.req in s.reqs && Inv(CompleteJob(s, w))
  {
    assert Busy(s.workers, w);
    var s' := CompleteJob(s, w);
    ReleaseExclusive(s.workers, w, s'.workers[w], s.inProgress, LostKeys(s.lost));
    DispatchJobs(s.reqs.Keys, s.workers, w, s'.workers[w], s.lost);
    assert s'.reqs.Keys == s.reqs.Keys;
    forall i | i in s'.reqs ensures RequestFits(s', i) {
      CompleteRequest(s, w, i);
    }
  }

  lemma LostAppend<Id>(lost: seq<Job<Id>>, job: Job<Id>, id: Id)
    ensures LostKeys(lost + [job]) == LostKeys(lost) + {job.key}
    ensures LostTiles(lost + [job], id) == LostTiles(lost, id) + (if job.req == id then multiset{job.key.tile} else multiset{})
  {
    assert (lost + [job])[..|lost|] == lost;
  }

  lemma FailRequest<Id>(s: State<Id>, w: nat, i: Id)
    requires Known(s) && JobsKnown(s.reqs.Keys, s.workers, s.lost) && Enabled(s, Fail(w)) && i in s.reqs && RequestFits(s, i)
    ensures RequestFits(Apply(s, Fail(w)), i)
  {
    var s' := Apply(s, Fail(w));
    HeldReleased(s.workers, w, s'.workers[w], i);
    LostAppend(s.lost, s.workers[w].phase.job, i);
    MoveHeld(s.reqs[i], Held(s.workers, i), Held(s'.workers, i), LostTiles(s.lost, i), JobTiles(s.workers[w].phase, i));
  }

  lemma FailShape<Id>(s: State<Id>, w: nat)
    requires Known(s) && JobsKnown(s.reqs.Keys, s.workers, s.lost) && Enabled(s, Fail(w))
    requires Exclusive(s.workers, s.inProgress, LostKeys(s.lost))
    ensures var s' := Apply(s, Fail(w));
            && s'.reqs == s.reqs && s'.queue == s.queue
            && JobsKnown(s'.reqs.Keys, s'.workers, s'.lost) && Exclusive(s'.workers, s'.inProgress, LostKeys(s'.lost))
  {
    assert Busy(s.workers, w);
    var s', job := Apply(s, Fail(w)), s.workers[w].phase.job;
    LostAppend(s.lost, job, job.req);
    ReleaseExclusive(s.workers, w, s'.workers[w], s.inProgress, LostKeys(s.lost));
    DispatchJobs(s.reqs.Keys, s.workers, w, s'.workers[w], s.lost);
  }

  lemma FailKeeps<Id>(s: State<Id>, w: nat)
    requires Inv(s) && Enabled(s, Fail(w))
    ensures Inv(Apply(s, Fail(w)))
  {
    FailShape(s, w);
    var s' := Apply(s, Fail(w));
    forall i | i in s'.reqs ensures RequestFits(s', i) {
      FailRequest(s, w, i);
    }
  }

  lemma MoveHeld(r: Request, held: multiset<nat>, held': multiset<nat>, lost: multiset<nat>, moved: multiset<nat>)
    requires Balanced(r, held, lost) && held == held' + moved
    ensures Balanced(r, held', lost + moved)
  {}

  /** Every step keeps the invariant. */
  lemma StepKeeps<Id>(s: State<Id>, step: Step<Id>)
    requires Inv(s) && Enabled(s, step)
    ensures Inv(Apply(s, step))
  {
    match step
    case Add(id, mapId, layerId, tiles) => AddKeeps(s, id, NewRequest(mapId, layerId, tiles));
    case Poll(w) => NextJobKeeps(s, w);
    case Fetch(w) => PhaseKeeps(s, Apply(s, step), w);
    case Put(w) => PhaseKeeps(s, Apply(s, step), w);
    case Complete(w) => CompleteKeeps(s, w);
    case Fail(w) => FailKeeps(s, w);
    case Abort(id) => AbortKeeps(s, id);
    case Evict(key) =>
      forall i | i in s.reqs ensures RequestFits(Apply(s, step), i) { assert RequestFits(s, i); }
  }
}
