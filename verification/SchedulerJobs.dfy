/** The steps in full, and what jobs are about: which tile of which request a key stands for, in
    every state that a run can get to, and which tiles are served from the cache. */
module SchedulerJobs {
  import opened Scheduler
  import opened SchedulerRuns
  import opened SchedulerProperties

  /** `key` is the one of tile `i` of the request, at a source that has its map and layer. */
  predicate IsKeyOf(key: Key, src: Source, r: Request, i: nat) {
    && i < |r.tiles| && r.mapId == src.mapId && r.layerId in src.layers
    && key.layer == src.layers[r.layerId] && key.mapId == r.mapId && key.layerId == r.layerId && key.tile == r.tiles[i]
  }

  /** `key` is the one of the tile that was the last to be handed out. */
  predicate IsLatest(key: Key, src: Source, r: Request) { r.next > 0 && IsKeyOf(key, src, r, r.next - 1) }

  /** What a worker does at a place of the queue: a tile is served exactly if it is cached under
      its type, map, layer and tile, and taken exactly if it is neither that nor in progress. */
  lemma VisitExactly<Id>(s: State<Id>, src: Source, id: Id)
    requires id in s.reqs
    ensures var r := s.reqs[id];
            var served := r.mapId == src.mapId && r.layerId in src.layers && r.next < |r.tiles|;
            && (Scheduler.At(s, src, id) == Cached <==> served && Key(src.layers[r.layerId], src.mapId, r.layerId, r.tiles[r.next]) in s.cache)
            && (Scheduler.At(s, src, id) == Take <==> served && Key(src.layers[r.layerId], src.mapId, r.layerId, r.tiles[r.next]) !in s.cache + s.inProgress)
  {}

  // ---- one poll ---------------------------------------------------------

  /** From `r` to `r'` the tiles from `r.next` up to `n` have been delivered, each of them cached
      under its own key. */
  ghost predicate ServedUpTo(src: Source, cache: set<Key>, r: Request, r': Request, n: nat) {
    && r'.mapId == r.mapId && r'.layerId == r.layerId && r'.tiles == r.tiles && r.next <= n
    && (n > r.next ==> n <= |r.tiles| && r'.delivered == r.delivered + r.tiles[r.next..n])
    && (n == r.next ==> r'.delivered == r.delivered)
    && forall i :: r.next <= i < n ==> CachedTile(src, cache, r, i)
  }

  ghost predicate CachedTile(src: Source, cache: set<Key>, r: Request, i: nat) { exists key :: key in cache && IsKeyOf(key, src, r, i) }

  /** Whether worker `w` has got the tile before `next` of the request. */
  predicate TookOf<Id(==)>(s: State<Id>, w: nat, id: Id)
    requires w < |s.workers|
  {
    Found(s, w) && s.workers[w].phase.job.req == id
  }

  /** What a poll has done for a request: it was served what is cached, and then perhaps a tile
      of it was handed out, under the key of that tile. */
  ghost predicate PolledFor<Id>(s: State<Id>, s': State<Id>, w: nat, id: Id)
    requires w < |s.workers| == |s'.workers|
  {
    && id in s.reqs && id in s'.reqs
    && var src, r, r' := s.workers[w].source, s.reqs[id], s'.reqs[id];
       if TookOf(s', w, id) then
         IsLatest(s'.workers[w].phase.job.key, src, r') && ServedUpTo(src, s.cache, r, r', r'.next - 1)
       else ServedUpTo(src, s.cache, r, r', r'.next)
  }

  lemma ServedOne(src: Source, cache: set<Key>, r: Request, key: Key)
    requires r.next < |r.tiles| && key in cache && IsKeyOf(key, src, r, r.next)
    ensures ServedUpTo(src, cache, r, NotifyResult(r.(next := r.next + 1), r.tiles[r.next]), r.next + 1)
  {}

  lemma ServedMore(src: Source, cache: set<Key>, r: Request, r1: Request, r2: Request, n: nat)
    requires ServedUpTo(src, cache, r, r1, r1.next) && ServedUpTo(src, cache, r1, r2, n)
    ensures ServedUpTo(src, cache, r, r2, n)
  {
    if r.next < r1.next < n { assert r.tiles[r.next..n] == r.tiles[r.next..r1.next] + r.tiles[r1.next..n]; }
    forall i | r.next <= i < n ensures CachedTile(src, cache, r, i) {
      if i >= r1.next {
        assert CachedTile(src, cache, r1, i);
        var key :| key in cache && IsKeyOf(key, src, r1, i);
        assert IsKeyOf(key, src, r, i);
      }
    }
  }

  /** Serving first does not change what a poll has done in all. */
  lemma PolledAfterServe<Id>(s: State<Id>, s1: State<Id>, s': State<Id>, w: nat, id: Id)
    requires w < |s.workers| == |s1.workers| == |s'.workers| && s1.workers[w].source == s.workers[w].source && s1.cache == s.cache
    requires PolledFor(s, s1, w, id) && !Found(s1, w) && PolledFor(s1, s', w, id)
    ensures PolledFor(s, s', w, id)
  {
    var r' := s'.reqs[id];
    ServedMore(s.workers[w].source, s.cache, s.reqs[id], s1.reqs[id], r', if TookOf(s', w, id) then r'.next - 1 else r'.next);
  }

  lemma ServePolls<Id>(s: State<Id>, w: nat, at: Id, id: Id)
    requires Known(s) && w < |s.workers| && !Found(s, w) && at in s.reqs && id in s.reqs && Scheduler.At(s, s.workers[w].source, at) == Cached
    ensures PolledFor(s, Serve(s, at), w, id)
  {
    if id == at {
      var r, src := s.reqs[id], s.workers[w].source;
      ServedOne(src, s.cache, r, Key(src.layers[r.layerId], r.mapId, r.layerId, r.tiles[r.next]));
    }
  }

  lemma DispatchPolls<Id>(s: State<Id>, w: nat, pos: nat, id: Id)
    requires Known(s) && w < |s.workers| && pos < |s.queue| && id in s.reqs && Scheduler.At(s, s.workers[w].source, s.queue[pos]) == Take
    ensures PolledFor(s, Dispatch(s, w, pos), w, id)
  {}

  lemma {:induction false} ScanPolls<Id>(s: State<Id>, w: nat, pos: nat, served: bool, id: Id)
    requires Known(s) && w < |s.workers| && s.workers[w].phase.Idle? && pos <= |s.queue| && id in s.reqs
    ensures PolledFor(s, Scan(s, w, pos, served).0, w, id)
    decreases |s.queue| - pos
  {
    if pos < |s.queue| {
      match Scheduler.At(s, s.workers[w].source, s.queue[pos])
      case Pass => ScanPolls(s, w, pos + 1, served, id);
      case Cached =>
        var s1 := Serve(s, s.queue[pos]);
        ServePolls(s, w, s.queue[pos], id);
        ScanPolls(s1, w, pos + 1, true, id);
        PolledAfterServe(s, s1, Scan(s, w, pos, served).0, w, id);
      case Take => DispatchPolls(s, w, pos, id);
    }
  }

  lemma {:induction false} WalksPolls<Id>(s: State<Id>, w: nat, id: Id)
    requires Known(s) && w < |s.workers| && s.workers[w].phase.Idle? && id in s.reqs
    ensures PolledFor(s, Walks(s, w), w, id)
    decreases Undispatched(s.reqs, s.queue)
  {
    var (s', served) := Scan(s, w, 0, false);
    var at := ScanShape(s, w, 0, false);
    ScanFalls(s, w, 0, false);
    ScanPolls(s, w, 0, false, id);
    if served && !Found(s', w) {
      WalksPolls(s', w, id);
      var at' := WalksShape(s', w);
      PolledAfterServe(s, s', Walks(s', w), w, id);
    }
  }

  lemma PolledAnyQueue<Id>(s: State<Id>, s1: State<Id>, s': State<Id>, w: nat, id: Id)
    requires w < |s.workers| == |s1.workers| && s'.reqs == s1.reqs && s'.workers == s1.workers && PolledFor(s, s1, w, id)
    ensures PolledFor(s, s', w, id) && (TookOf(s', w, id) <==> TookOf(s1, w, id))
  {}

  lemma TakerIsQueued<Id>(s: State<Id>, s1: State<Id>, w: nat, at: nat, id: Id)
    requires w < |s.workers| == |s1.workers| && TookOf(s1, w, id) && TookAt(s, s1, w, at)
    ensures id in s.queue
  {}

  /** For every request there is: what a poll delivers of it are its next tiles, each of them
      cached under its type, map, layer and tile; and the job that a poll returns is for a
      queued request, with exactly the key of its next tile behind those. */
  lemma PollExactly<Id>(s: State<Id>, w: nat, id: Id)
    requires Known(s) && w < |s.workers| && s.workers[w].phase.Idle? && id in s.reqs
    ensures var s' := NextJob(s, w);
            && |s'.workers| == |s.workers| && PolledFor(s, s', w, id)
            && (TookOf(s', w, id) ==> id in s.queue)
  {
    var s1 := Walks(s, w);
    WalksPolls(s, w, id);
    var at := WalksShape(s, w);
    if TookOf(s1, w, id) { TakerIsQueued(s, s1, w, at, id); }
    PolledAnyQueue(s, s1, NextJob(s, w), w, id);
  }

  /** The job that a poll returns is the tile that it was the last to hand out of its request. */
  lemma JobFound<Id>(s: State<Id>, s': State<Id>, w: nat, src: Source, job: Job<Id>, r: Request)
    requires Inv(s) && w < |s.workers| && s.workers[w].phase.Idle? && s.workers[w].source == src && s' == NextJob(s, w)
    requires Found(s', w) && job == s'.workers[w].phase.job && job.req in s'.reqs && r == s'.reqs[job.req]
    ensures job.req in s.queue && IsLatest(job.key, src, r)
  {
    var at := WalksShape(s, w);
    PollExactly(s, w, job.req);
  }

  /** `a` stands before `b`. */
  predicate InFront<Id(==)>(q: seq<Id>, a: Id, b: Id) { exists i, j :: 0 <= i < j < |q| && q[i] == a && q[j] == b }

  lemma {:induction false} UnfinishedOrder<Id>(reqs: map<Id, Request>, q: seq<Id>, a: Id, b: Id)
    requires forall id :: id in q ==> id in reqs
    requires InFront(Unfinished(reqs, q), a, b)
    ensures InFront(q, a, b)
  {
    var front, last := q[..|q| - 1], q[|q| - 1];
    var rest := Unfinished(reqs, front);
    if InFront(rest, a, b) {
      UnfinishedOrder(reqs, front, a, b);
      var i, j :| 0 <= i < j < |front| && front[i] == a && front[j] == b;
      assert q[i] == a && q[j] == b;
    } else {
      var i, j :| 0 <= i < j <= |rest| && (rest + [last])[i] == a && (rest + [last])[j] == b;
      assert j == |rest| && a in rest;
      var k :| 0 <= k < |front| && front[k] == a;
      assert q[k] == a && q[|q| - 1] == b;
    }
  }

  /** What else a poll does: a job goes to its worker and its key to those in progress; its
      request moves behind all others; and of these, those with tiles left stay, in their order.
      The cache, the other workers and the logs are as before. */
  lemma PollFrame<Id>(s: State<Id>, w: nat) returns (at: nat)
    requires Inv(s) && w < |s.workers| && s.workers[w].phase.Idle?
    ensures var s', src := NextJob(s, w), s.workers[w].source;
            && s'.cache == s.cache && s'.lost == s.lost && s'.asked == s.asked && s'.reqs.Keys == s.reqs.Keys
            && if Found(s', w) then
                 && at < |s.queue| && s'.workers[w].phase.job.req == s.queue[at]
                 && s'.workers == s.workers[w := Worker(src, s'.workers[w].phase)]
                 && s'.inProgress == s.inProgress + {s'.workers[w].phase.job.key}
                 && Remains(s'.queue, s.queue[..at] + s.queue[at + 1..] + [s.queue[at]], s'.reqs)
               else
                 && s'.workers == s.workers && s'.inProgress == s.inProgress
                 && Remains(s'.queue, s.queue, s'.reqs)
  {
    at := WalksShape(s, w);
    WalkedRemains(s, w, Walks(s, w), NextJob(s, w));
  }

  lemma WalkedRemains<Id>(s: State<Id>, w: nat, s1: State<Id>, s': State<Id>)
    requires Inv(s) && w < |s.workers| && s.workers[w].phase.Idle? && s1 == Walks(s, w) && s' == NextJob(s, w)
    ensures s' == s1.(queue := s'.queue) && Remains(s'.queue, s1.queue, s'.reqs)
  {
    NextJobKeeps(s, w);
    WalksKeeps(s, w);
    RemainsUnfinished(s1.reqs, s1.queue);
  }

  /** `q'` is what remains of `q` without the requests that are handed out in full. */
  ghost predicate Remains<Id>(q': seq<Id>, q: seq<Id>, reqs: map<Id, Request>) {
    && (forall id :: id in q' ==> id in q && id in reqs && reqs[id].next < |reqs[id].tiles|)
    && (forall id :: id in q && id in reqs && reqs[id].next < |reqs[id].tiles| ==> id in q')
    && (forall i, j :: 0 <= i < j < |q'| ==> InFront(q, q'[i], q'[j]))
    && Distinct(q')
  }

  lemma RemainsUnfinished<Id>(reqs: map<Id, Request>, q: seq<Id>)
    requires (forall id :: id in q ==> id in reqs && reqs[id].next <= |reqs[id].tiles|) && Distinct(Unfinished(reqs, q))
    ensures Remains(Unfinished(reqs, q), q, reqs)
  {
    var q' := Unfinished(reqs, q);
    forall i, j | 0 <= i < j < |q'| ensures InFront(q, q'[i], q'[j]) { UnfinishedOrder(reqs, q, q'[i], q'[j]); }
  }

  // ---- the other steps --------------------------------------------------

  /** The request after one more result: the last one makes it a success, and calls back. */
  predicate GotResult(r: Request, r': Request, tile: nat) {
    var last := r.results + 1 == |r.tiles|;
    r' == Request(r.mapId, r.layerId, r.tiles, r.next, r.results + 1, if last then Success else r.status,
                  r.delivered + [tile], if last then r.done + [Success] else r.done)
  }

  lemma {:induction false} WithoutOne<Id>(q: seq<Id>, id: Id, p: nat)
    requires Distinct(q) && p < |q| && q[p] == id
    ensures Without(q, id) == q[..p] + q[p + 1..]
  {
    var front, last := q[..|q| - 1], q[|q| - 1];
    if p == |q| - 1 {
      WithoutNothing(front, id);
    } else {
      WithoutOne(front, id, p);
      assert q[p + 1..] == front[p + 1..] + [last] && q[..p] == front[..p];
    }
  }

  lemma {:induction false} WithoutNothing<Id>(q: seq<Id>, id: Id)
    ensures id !in q ==> Without(q, id) == q
  {
    if q != [] { WithoutNothing(q[..|q| - 1], id); }
  }

  /** Every other step, when it can be taken and what the next state is. */
  lemma StepExactly<Id>(s: State<Id>, step: Step<Id>)
    requires Known(s) && JobsKnown(s.reqs.Keys, s.workers, s.lost)
    ensures match step
            case Poll(w) => Enabled(s, step) <==> w < |s.workers| && s.workers[w].phase == Idle
            case Add(id, mapId, layerId, tiles) =>
              && (Enabled(s, step) <==> id !in s.reqs)
              && (id !in s.reqs ==>
                    Apply(s, step) ==
                    (if tiles == [] then s.(reqs := s.reqs[id := Request(mapId, layerId, tiles, 0, 0, Success, [], [Success])])
                     else s.(reqs := s.reqs[id := Request(mapId, layerId, tiles, 0, 0, Open, [], [])], queue := s.queue + [id])))
            case Fetch(w) =>
              && (Enabled(s, step) <==> w < |s.workers| && s.workers[w].phase.Dispatched?)
              && (Enabled(s, step) ==>
                    var Worker(src, Dispatched(job)) := s.workers[w];
                    Apply(s, step) == s.(workers := s.workers[w := Worker(src, Fetched(job))], asked := s.asked + [job.key]))
            case Put(w) =>
              && (Enabled(s, step) <==> w < |s.workers| && s.workers[w].phase.Fetched?)
              && (Enabled(s, step) ==>
                    var Worker(src, Fetched(job)) := s.workers[w];
                    Apply(s, step) == s.(workers := s.workers[w := Worker(src, Stored(job))], cache := s.cache + {job.key}))
            case Complete(w) =>
              && (Enabled(s, step) <==> w < |s.workers| && s.workers[w].phase.Stored?)
              && (Enabled(s, step) ==>
                    var Worker(src, Stored(job)) := s.workers[w];
                    var s' := Apply(s, step);
                    && s' == s.(workers := s.workers[w := Worker(src, Idle)], inProgress := s.inProgress - {job.key}, reqs := s'.reqs)
                    && s'.reqs.Keys == s.reqs.Keys && (forall id :: id in s.reqs && id != job.req ==> s'.reqs[id] == s.reqs[id])
                    && GotResult(s.reqs[job.req], s'.reqs[job.req], job.key.tile))
            case Fail(w) =>
              && (Enabled(s, step) <==> w < |s.workers| && (s.workers[w].phase.Dispatched? || s.workers[w].phase.Fetched?))
              && (Enabled(s, step) ==>
                    var Worker(src, phase) := s.workers[w];
                    Apply(s, step) == s.(workers := s.workers[w := Worker(src, Idle)], lost := s.lost + [phase.job],
                                         asked := if phase.Dispatched? then s.asked + [phase.job.key] else s.asked))
            case Abort(id) =>
              && (Enabled(s, step) <==> id in s.reqs)
              && (id in s.reqs && id !in s.queue ==> Apply(s, step) == s)
              && (id in s.reqs && id in s.queue ==>
                    var r, s' := s.reqs[id], Apply(s, step);
                    && s' == s.(reqs := s.reqs[id := r.(status := Aborted, done := r.done + [Aborted])], queue := s'.queue)
                    && forall p :: 0 <= p < |s.queue| && s.queue[p] == id && Distinct(s.queue) ==> s'.queue == s.queue[..p] + s.queue[p + 1..])
            case Evict(key) => Enabled(s, step) && Apply(s, step) == s.(cache := s.cache - {key})
  {
    assert [] + [Success] == [Success];
    if step.Abort? && Distinct(s.queue) {
      forall p | 0 <= p < |s.queue| && s.queue[p] == step.id ensures Without(s.queue, step.id) == s.queue[..p] + s.queue[p + 1..] {
        WithoutOne(s.queue, step.id, p);
      }
    }
  }

  // ---- every state of a run ---------------------------------------------

  /** `key` is that of a tile of the request that has been handed out, at one of the sources. */
  ghost predicate KeyFits<Id>(s: State<Id>, id: Id, key: Key) {
    id in s.reqs && exists w, i :: KeyFitsAt(s, id, key, w, i)
  }

  predicate KeyFitsAt<Id(==)>(s: State<Id>, id: Id, key: Key, w: nat, i: nat) {
    w < |s.workers| && id in s.reqs && i < s.reqs[id].next && IsKeyOf(key, s.workers[w].source, s.reqs[id], i)
  }

  /** The job of worker `w` is one that its own source can do. */
  ghost predicate HeldFits<Id>(s: State<Id>, w: nat) {
    Busy(s.workers, w) ==> exists i :: KeyFitsAt(s, s.workers[w].phase.job.req, s.workers[w].phase.job.key, w, i)
  }

  ghost predicate AskedFits<Id>(s: State<Id>, key: Key) { exists id :: id in s.reqs && KeyFits(s, id, key) }

  /** Every job that is held or was lost, and every call of a data source, is about a tile that
      was handed out: its type, map, layer and tile are those of a request for it. */
  ghost predicate JobsFit<Id>(s: State<Id>) {
    && (forall w :: 0 <= w < |s.workers| ==> HeldFits(s, w))
    && (forall j :: 0 <= j < |s.lost| ==> KeyFits(s, s.lost[j].req, s.lost[j].key))
    && (forall j :: 0 <= j < |s.asked| ==> AskedFits(s, s.asked[j]))
  }

  /** Sources stay, and requests only move forward. */
  ghost predicate Continues<Id>(s: State<Id>, s': State<Id>) {
    && |s'.workers| == |s.workers| && (forall w :: 0 <= w < |s.workers| ==> s'.workers[w].source == s.workers[w].source)
    && forall id :: id in s.reqs ==> id in s'.reqs && Grew(s.reqs[id], s'.reqs[id])
  }

  lemma KeyStaysAt<Id>(s: State<Id>, s': State<Id>, id: Id, key: Key, w: nat, i: nat)
    requires Continues(s, s') && KeyFitsAt(s, id, key, w, i)
    ensures KeyFitsAt(s', id, key, w, i)
  {}

  lemma KeyStays<Id>(s: State<Id>, s': State<Id>, id: Id, key: Key)
    requires Continues(s, s') && KeyFits(s, id, key)
    ensures KeyFits(s', id, key)
  {
    var w, i :| KeyFitsAt(s, id, key, w, i);
    KeyStaysAt(s, s', id, key, w, i);
  }

  lemma AskedStays<Id>(s: State<Id>, s': State<Id>, key: Key)
    requires Continues(s, s') && AskedFits(s, key)
    ensures AskedFits(s', key)
  {
    var id :| id in s.reqs && KeyFits(s, id, key);
    KeyStays(s, s', id, key);
  }

  lemma HeldStays<Id>(s: State<Id>, s': State<Id>, w: nat)
    requires Continues(s, s') && w < |s.workers| && HeldFits(s, w)
    requires !s'.workers[w].phase.Idle? ==> Busy(s.workers, w) && s'.workers[w].phase.job == s.workers[w].phase.job
    ensures HeldFits(s', w)
  {
    if Busy(s'.workers, w) {
      var job := s.workers[w].phase.job;
      var i :| KeyFitsAt(s, job.req, job.key, w, i);
      KeyStaysAt(s, s', job.req, job.key, w, i);
    }
  }

  lemma StepContinues<Id>(s: State<Id>, step: Step<Id>)
    requires Sound(s) && Enabled(s, step)
    ensures Continues(s, Apply(s, step))
  {
    forall id | id in s.reqs ensures id in Apply(s, step).reqs && Grew(s.reqs[id], Apply(s, step).reqs[id]) { StepGrows(s, step, id); }
    if step.Poll? { var at := WalksShape(s, step.w); }
  }

  /** What was true of a job of the state before is true of it in the next. */
  lemma SameJobsFit<Id>(s: State<Id>, s': State<Id>, lost: nat, asked: nat)
    requires JobsFit(s) && Continues(s, s') && lost == |s.lost| && asked == |s.asked|
    requires s.lost <= s'.lost && s.asked <= s'.asked
    ensures forall j :: 0 <= j < lost ==> KeyFits(s', s'.lost[j].req, s'.lost[j].key)
    ensures forall j :: 0 <= j < asked ==> AskedFits(s', s'.asked[j])
  {
    forall j | 0 <= j < lost ensures KeyFits(s', s'.lost[j].req, s'.lost[j].key) { KeyStays(s, s', s.lost[j].req, s.lost[j].key); }
    forall j | 0 <= j < asked ensures AskedFits(s', s'.asked[j]) { AskedStays(s, s', s.asked[j]); }
  }

  lemma PollFits<Id>(s: State<Id>, w: nat)
    requires Inv(s) && JobsFit(s) && Enabled(s, Poll(w))
    ensures JobsFit(NextJob(s, w))
  {
    var s' := NextJob(s, w);
    StepContinues(s, Poll(w));
    var at := PollFrame(s, w);
    SameJobsFit(s, s', |s.lost|, |s.asked|);
    if Found(s', w) { TakenFits(s, s', w, s'.workers[w].phase.job); }
    OthersFit(s, s', w);
  }

  /** A job that was just taken is for the tile that was last handed out of its request. */
  lemma TakenFits<Id>(s: State<Id>, s': State<Id>, w: nat, job: Job<Id>)
    requires Known(s) && w < |s.workers| && s.workers[w].phase.Idle? && s' == NextJob(s, w) && job.req in s.reqs
    requires |s'.workers| == |s.workers| && s'.workers[w] == Worker(s.workers[w].source, Dispatched(job))
    ensures HeldFits(s', w)
  {
    PollExactly(s, w, job.req);
    assert KeyFitsAt(s', job.req, job.key, w, s'.reqs[job.req].next - 1);
  }

  lemma OthersFit<Id>(s: State<Id>, s': State<Id>, w: nat)
    requires JobsFit(s) && Continues(s, s') && w < |s.workers| && (Found(s', w) ==> HeldFits(s', w))
    requires s.workers[w].phase.Idle? && (s'.workers == s.workers || (Found(s', w) && s'.workers == s.workers[w := s'.workers[w]]))
    ensures forall v :: 0 <= v < |s'.workers| ==> HeldFits(s', v)
  {
    forall v | 0 <= v < |s'.workers| ensures HeldFits(s', v) {
      if v != w || !Found(s', w) { HeldStays(s, s', v); }
    }
  }

  /** A worker's key, as it is when it is asked for or lost. */
  lemma HeldKey<Id>(s: State<Id>, s': State<Id>, w: nat)
    requires JobsFit(s) && Continues(s, s') && Busy(s.workers, w)
    ensures KeyFits(s', s.workers[w].phase.job.req, s.workers[w].phase.job.key) && AskedFits(s', s.workers[w].phase.job.key)
  {
    var job := s.workers[w].phase.job;
    assert HeldFits(s, w);
    var i :| KeyFitsAt(s, job.req, job.key, w, i);
    KeyStaysAt(s, s', job.req, job.key, w, i);
  }

  lemma StepKeepsJob<Id>(s: State<Id>, step: Step<Id>, v: nat)
    requires Sound(s) && Enabled(s, step) && !step.Poll? && v < |s.workers|
    ensures var s' := Apply(s, step); |s'.workers| == |s.workers| && (!s'.workers[v].phase.Idle? ==> Busy(s.workers, v) && s'.workers[v].phase.job == s.workers[v].phase.job)
  {}

  /** What a step adds to the logs is about the job of its worker. */
  lemma StepLogs<Id>(s: State<Id>, step: Step<Id>)
    requires Sound(s) && Enabled(s, step) && !step.Poll?
    ensures var s' := Apply(s, step);
            && (s'.asked == s.asked || ((step.Fetch? || step.Fail?) && Busy(s.workers, step.w) && s'.asked == s.asked + [s.workers[step.w].phase.job.key]))
            && (s'.lost == s.lost || (step.Fail? && Busy(s.workers, step.w) && s'.lost == s.lost + [s.workers[step.w].phase.job]))
  {}

  lemma OtherStepFits<Id>(s: State<Id>, step: Step<Id>)
    requires Sound(s) && JobsFit(s) && Enabled(s, step) && !step.Poll?
    ensures JobsFit(Apply(s, step))
  {
    var s' := Apply(s, step);
    StepContinues(s, step);
    StepLogs(s, step);
    SameJobsFit(s, s', |s.lost|, |s.asked|);
    forall v | 0 <= v < |s'.workers| ensures HeldFits(s', v) {
      StepKeepsJob(s, step, v);
      HeldStays(s, s', v);
    }
    if step.Fetch? || step.Fail? { HeldKey(s, s', step.w); }
  }

  lemma {:induction false} RunFits<Id>(s: State<Id>, steps: seq<Step<Id>>)
    requires Inv(s) && JobsFit(s) && CanRun(s, steps)
    ensures JobsFit(RunTo(s, steps))
    decreases |steps|
  {
    if steps != [] {
      StepKeeps(s, steps[0]);
      if steps[0].Poll? { PollFits(s, steps[0].w); } else { OtherStepFits(s, steps[0]); }
      RunFits(Apply(s, steps[0]), steps[1..]);
    }
  }

  /** From a service with nothing requested, wherever a run has got to: every job that a worker
      holds or that was lost, and every key that a data source was ever asked for, has the type,
      map, layer and tile of a request's tile that was handed out. */
  lemma JobsAreRequested<Id>(s: State<Id>, steps: seq<Step<Id>>)
    requires Initial(s) && CanRun(s, steps)
    ensures JobsFit(RunTo(s, steps))
  {
    InitialInv(s);
    RunFits(s, steps);
  }
}
