/** Requests and the controller as the objects they are, each method proved to be one step
    of the scheduler. */
module Controllers {
  import opened Options
  import opened Scheduler
  import opened SchedulerRuns
  import opened SchedulerJobs

  class LayerTilesRequest {
    const mapId: string
    const layerId: string
    const tiles: seq<nat>
    var nextTileIndex: nat
    var resultCount: nat
    var status: Status
    /** The calls made to the result and done callbacks. */
    ghost var delivered: seq<nat>
    ghost var done: seq<Status>

    ghost function Value(): Request
      reads this
    {
      Request(mapId, layerId, tiles, nextTileIndex, resultCount, status, delivered, done)
    }

    constructor (mapId: string, layerId: string, tiles: seq<nat>)
      ensures this.mapId == mapId && this.layerId == layerId && this.tiles == tiles && Value() == NewRequest(mapId, layerId, tiles)
    {
      this.mapId, this.layerId, this.tiles := mapId, layerId, tiles;
      nextTileIndex, resultCount := 0, 0;
      delivered, done := [], [];
      status := if tiles == [] then Success else Open;
    }

    method NotifyStatus()
      modifies this`done
      ensures Value() == old(Value()).(done := if status == Open then old(done) else old(done) + [status])
    {
      if status != Open {
        done := done + [status];
      }
    }

    method SetStatus(s: Status)
      modifies this`status, this`done
      ensures Value() == Scheduler.SetStatus(old(Value()), s)
    {
      status := s;
      NotifyStatus();
    }

    method NotifyResult(tile: nat)
      modifies this
      ensures Value() == Scheduler.NotifyResult(old(Value()), tile)
    {
      delivered := delivered + [tile];
      resultCount := resultCount + 1;
      if resultCount == |tiles| {
        SetStatus(Success);
      }
    }
  }

  ghost function Values(known: set<LayerTilesRequest>): map<LayerTilesRequest, Request>
    reads known
  {
    map r | r in known :: r.Value()
  }

  /** One request has changed since its value was noted. */
  lemma OneChanged(noted: map<LayerTilesRequest, Request>, changed: LayerTilesRequest)
    requires changed in noted && forall r :: r in noted && r != changed ==> noted[r] == r.Value()
    ensures Values(noted.Keys) == noted[changed := changed.Value()]
  {}

  lemma DispatchFields(s: State<LayerTilesRequest>, w: nat, pos: nat, id: LayerTilesRequest, next: Request, key: Key)
    requires Known(s) && w < |s.workers| && pos < |s.queue| && s.queue[pos] == id
    requires var r := s.reqs[id];
             && Serves(s.workers[w].source, r) && r.next < |r.tiles|
             && next == r.(next := r.next + 1) && key == NextKey(s.workers[w].source, r)
    ensures var s' := Dispatch(s, w, pos);
            && s'.reqs == s.reqs[id := next] && s'.reqs.Keys == s.reqs.Keys && Known(s')
            && s'.queue == s.queue[..pos] + s.queue[pos + 1..] + [id] && s'.inProgress == s.inProgress + {key} && s'.cache == s.cache
            && |s'.workers| == |s.workers| && s'.workers[w].phase == Dispatched(Job(key, id))
  {
    MoveToEnd(s.queue, pos);
    assert s.reqs[id := next].Keys == s.reqs.Keys;
  }

  class Controller {
    var jobsInProgress: set<Key>
    var cache: set<Key>
    var requests: seq<LayerTilesRequest>
    /** The service as a whole: these fields, the requests' own, and the workers. */
    ghost var state: State<LayerTilesRequest>

    ghost predicate Mirrors(s: State<LayerTilesRequest>)
      reads this, s.reqs.Keys
    {
      && s.reqs == Values(s.reqs.Keys)
      && s.queue == requests && s.inProgress == jobsInProgress && s.cache == cache
    }

    ghost predicate Valid()
      reads this, state.reqs.Keys
    {
      Mirrors(state) && Inv(state)
    }

    constructor (workers: seq<Worker<LayerTilesRequest>>)
      requires forall w :: 0 <= w < |workers| ==> workers[w].phase.Idle?
      ensures Valid() && state == State(map[], [], {}, {}, workers, [], [])
    {
      jobsInProgress, cache, requests := {}, {}, [];
      state := State(map[], [], {}, {}, workers, [], []);
    }

    /** A cached tile is delivered at once. */
    method ServeCached(request: LayerTilesRequest)
      requires Mirrors(state) && Known(state) && request in requests && request.nextTileIndex < |request.tiles|
      modifies this`state, request
      ensures request in old(state).reqs && state == Serve(old(state), request)
      ensures Mirrors(state) && Known(state) && state.reqs.Keys == old(state).reqs.Keys && state.workers == old(state).workers
    {
      ghost var before := state;
      assert request in before.reqs && before.reqs[request] == request.Value();
      var tileId := request.tiles[request.nextTileIndex];
      request.nextTileIndex := request.nextTileIndex + 1;
      request.NotifyResult(tileId);
      state := Serve(before, request);
      assert state.reqs.Keys == before.reqs.Keys;
    }

    /** The job for `key` starts; the request goes to the end of the list. */
    method StartJob(i: nat, key: Key, ghost w: nat)
      requires Mirrors(state) && Known(state) && i < |requests| && w < |state.workers|
      requires var r := requests[i].Value();
               Serves(state.workers[w].source, r) && r.next < |r.tiles| && key == NextKey(state.workers[w].source, r)
      modifies this`state, this`jobsInProgress, this`requests, requests[i]
      ensures old(requests[i]) in old(state).reqs && i < |old(state).queue|
      ensures old(state).reqs[old(requests[i])] == old(requests[i].Value())
      ensures state == Dispatch(old(state), w, i)
      ensures Mirrors(state) && Known(state) && state.reqs.Keys == old(state).reqs.Keys
      ensures |state.workers| == |old(state).workers| && state.workers[w].phase == Dispatched(Job(key, old(requests[i])))
    {
      ghost var before := state;
      var request := requests[i];
      assert request in before.reqs && before.reqs[request] == request.Value();
      request.nextTileIndex := request.nextTileIndex + 1;
      jobsInProgress := jobsInProgress + {key};
      requests := requests[..i] + requests[i + 1..] + [request];
      DispatchFields(before, w, i, request, request.Value(), key);
      state := Dispatch(before, w, i);
      OneChanged(before.reqs, request);
      assert state.reqs == Values(state.reqs.Keys);
    }

    /** What to do for a request, and the key of its next tile unless it is passed over. */
    method Look(request: LayerTilesRequest, src: Source) returns (visit: Visit, key: Key)
      requires Mirrors(state) && request in state.reqs
      ensures visit == Scheduler.At(state, src, request)
      ensures visit != Pass ==> Serves(src, request.Value()) && key == NextKey(src, request.Value())
      ensures visit != Pass ==>
                && request.mapId == src.mapId && request.layerId in src.layers && request.nextTileIndex < |request.tiles|
                && key == Key(src.layers[request.layerId], src.mapId, request.layerId, request.tiles[request.nextTileIndex])
                && (visit == Cached <==> key in cache) && (visit == Take <==> key !in cache + jobsInProgress)
      ensures visit == Pass <==>
                (request.mapId == src.mapId && request.layerId in src.layers && request.nextTileIndex < |request.tiles| ==>
                   Key(src.layers[request.layerId], src.mapId, request.layerId, request.tiles[request.nextTileIndex]) in jobsInProgress - cache)
    {
      assert state.reqs[request] == request.Value();
      visit, key := Pass, Key(0, "", "", 0);
      if request.mapId == src.mapId && request.layerId in src.layers && request.nextTileIndex < |request.tiles| {
        key := Key(src.layers[request.layerId], request.mapId, request.layerId, request.tiles[request.nextTileIndex]);
        if key in cache {
          visit := Cached;
        } else if key !in jobsInProgress {
          visit := Take;
        }
      }
    }

    /** One walk over the list of requests. */
    method Walk(src: Source, ghost w: nat) returns (found: Option<Job<LayerTilesRequest>>, served: bool)
      requires Mirrors(state) && Known(state) && w < |state.workers| && state.workers[w].phase.Idle? && state.workers[w].source == src
      modifies this`state, this`jobsInProgress, this`requests, state.reqs.Keys
      ensures (state, served) == Scan(old(state), w, 0, false)
      ensures Mirrors(state) && Known(state) && state.reqs.Keys == old(state).reqs.Keys && w < |state.workers|
      ensures found == if Found(state, w) then Some(state.workers[w].phase.job) else None
    {
      served, found := false, None;
      var i := 0;
      while i < |requests|
        invariant 0 <= i <= |requests| && Mirrors(state) && Known(state) && state.reqs.Keys == old(state).reqs.Keys
        invariant w < |state.workers| && state.workers[w] == old(state).workers[w]
        invariant Scan(old(state), w, 0, false) == Scan(state, w, i, served)
      {
        var request, next := requests[i], i + 1;
        ScanFrom(state, w, i, next, served, request);
        var visit, key := Look(request, src);
        match visit {
          case Pass =>
          case Cached =>
            ServeCached(request);
            served := true;
          case Take =>
            StartJob(i, key, w);
            found := Some(Job(key, request));
            return;
        }
        i := next;
      }
    }

    /** Drops the requests whose tiles have all been handed out. */
    method RemoveFinished()
      requires Mirrors(state) && Known(state)
      modifies this`state, this`requests
      ensures state == old(state).(queue := Unfinished(old(state).reqs, old(state).queue))
      ensures Mirrors(state)
    {
      var kept: seq<LayerTilesRequest> := [];
      for i := 0 to |requests|
        invariant kept == Unfinished(state.reqs, requests[..i])
      {
        var r := requests[i];
        assert r in state.reqs && state.reqs[r] == r.Value();
        assert requests[..i + 1][..i] == requests[..i];
        if r.nextTileIndex != |r.tiles| {
          kept := kept + [r];
        }
      }
      assert requests[..|requests|] == requests;
      requests := kept;
      state := state.(queue := kept);
    }

    /** The next job for a worker of `src`: walks until one finds a job or serves nothing. */
    method NextJob(src: Source, ghost w: nat) returns (result: Option<Job<LayerTilesRequest>>)
      requires Valid() && Enabled(state, Poll(w)) && state.workers[w].source == src
      modifies this`state, this`jobsInProgress, this`requests, state.reqs.Keys
      ensures state == Apply(old(state), Poll(w)) && Valid()
      ensures result == if Found(state, w) then Some(state.workers[w].phase.job) else None
      ensures result.Some? ==>
                var Job(key, request) := result.value;
                request in old(requests) && IsLatest(key, src, request.Value())
    {
      StepKeeps(state, Poll(w));
      var cachedTilesServed;
      ScanFalls(state, w, 0, false);
      ScanKeepsWorker(state, w, 0, false);
      result, cachedTilesServed := Walk(src, w);
      while cachedTilesServed && result.None?
        invariant Mirrors(state) && Known(state) && state.reqs.Keys == old(state).reqs.Keys
        invariant w < |state.workers| && state.workers[w].source == src && (Found(state, w) || state.workers[w].phase.Idle?)
        invariant result == if Found(state, w) then Some(state.workers[w].phase.job) else None
        invariant Walks(old(state), w) == if cachedTilesServed && result.None? then Walks(state, w) else state
        decreases cachedTilesServed && result.None?, Undispatched(state.reqs, state.queue)
      {
        ScanFalls(state, w, 0, false);
        ScanKeepsWorker(state, w, 0, false);
        result, cachedTilesServed := Walk(src, w);
      }
      RemoveFinished();
      if result.Some? {
        var request := result.value.req;
        assert request.Value() == state.reqs[request];
        JobFound(old(state), state, w, src, result.value, request.Value());
      }
    }

    /** A request that is done already is only notified; any other one is queued. */
    method Enqueue(r: LayerTilesRequest)
      requires Mirrors(state)
      modifies this`state, this`requests, r
      ensures state == SchedulerRuns.AddRequest(old(state), r, old(r.Value())) && Mirrors(state)
    {
      assert r in state.reqs ==> state.reqs[r] == r.Value();
      state := SchedulerRuns.AddRequest(state, r, r.Value());
      if r.status != Open {
        r.NotifyStatus();
      } else {
        requests := requests + [r];
      }
      assert state.reqs.Keys == old(state).reqs.Keys + {r};
    }

    /** Any request may be given, also one that is queued or done already; a new one is a step
        of the scheduler. */
    method AddRequest(r: LayerTilesRequest)
      requires Mirrors(state)
      modifies this`state, this`requests, r
      ensures state == SchedulerRuns.AddRequest(old(state), r, old(r.Value())) && Mirrors(state)
      ensures r in state.reqs && requests == if old(r.status) == Open then old(requests) + [r] else old(requests)
      ensures r.Value() == old(r.Value()).(done := if old(r.status) == Open then old(r.done) else old(r.done) + [old(r.status)])
      ensures old(Valid()) && r !in old(state).reqs && old(r.Value()) == NewRequest(r.mapId, r.layerId, r.tiles) ==>
                state == Apply(old(state), Add(r, r.mapId, r.layerId, r.tiles)) && Valid()
    {
      if Valid() && r !in state.reqs {
        StepKeeps(state, Add(r, r.mapId, r.layerId, r.tiles));
      }
      Enqueue(r);
    }

    /** The list without `r`, and how often it was there. */
    method RemoveIf(r: LayerTilesRequest) returns (kept: seq<LayerTilesRequest>, numRemoved: nat)
      ensures kept == Without(requests, r)
      ensures numRemoved > 0 <==> r in requests
    {
      kept, numRemoved := [], 0;
      for i := 0 to |requests|
        invariant kept == Without(requests[..i], r)
        invariant numRemoved > 0 <==> r in requests[..i]
      {
        assert requests[..i + 1][..i] == requests[..i];
        if requests[i] == r {
          numRemoved := numRemoved + 1;
        } else {
          kept := kept + [requests[i]];
        }
      }
      assert requests[..|requests|] == requests;
    }

    method Withdraw(r: LayerTilesRequest)
      requires Mirrors(state) && r in state.reqs
      modifies this`state, this`requests, r
      ensures state == SchedulerRuns.AbortRequest(old(state), r) && Mirrors(state)
    {
      assert state.reqs[r] == r.Value();
      state := SchedulerRuns.AbortRequest(state, r);
      var kept, numRemoved := RemoveIf(r);
      WithoutNothing(requests, r);
      requests := kept;
      if numRemoved > 0 {
        r.SetStatus(Aborted);
      }
      assert state.reqs.Keys == old(state).reqs.Keys;
    }

    /** Second pass of a bundle that is accepted. */
    method AddEach(rs: seq<LayerTilesRequest>)
      requires Mirrors(state) && AllNew(state, rs)
      modifies this`state, this`requests, rs
      ensures state == AddAll(old(state), rs) && Mirrors(state)
    {
      for i := 0 to |rs|
        invariant Mirrors(state) && state == AddAll(old(state), rs[..i])
        invariant forall j :: 0 <= j < |rs| && rs[j] !in state.reqs ==> rs[j].Value() == old(rs[j].Value())
      {
        assert rs[..i + 1][..i] == rs[..i];
        assert rs[i] in state.reqs ==> state.reqs[rs[i]] == rs[i].Value();
        Enqueue(rs[i]);
      }
      assert rs[..|rs|] == rs;
    }

    method AddBundle(rs: seq<LayerTilesRequest>)
      requires Mirrors(state) && AllNew(state, rs)
      modifies this`state, this`requests, rs
      ensures state == AddAll(old(state), rs) && Mirrors(state)
      ensures QueuedBehind(old(requests), rs, requests) && OnlyAdded(old(state), rs, state)
      ensures forall i :: 0 <= i < |rs| ==> rs[i] in state.reqs && IsAdded(rs[i].Value(), rs[i].mapId, rs[i].layerId, rs[i].tiles, multiset(rs)[rs[i]])
    {
      ghost var was := state;
      AddEach(rs);
      ghost var picks := AddAllEffect(was, rs);
      AddedValues(state, rs);
    }

    /** A bundle is queued as a whole, or not at all: then each request that has a reason of its
        own gets that status, and every other one that is still open is aborted. A request that
        has no tiles and no reason of its own is not told that it is done. */
    method Request(rs: seq<LayerTilesRequest>, access: seq<Status>) returns (accepted: bool)
      requires Valid() && AllNew(state, rs) && |access| == |rs| && Granted(rs, access)
      modifies this`state, this`requests, rs
      ensures accepted <==> forall i :: 0 <= i < |rs| ==> access[i] == Success
      ensures accepted ==> state == AddAll(old(state), rs) && Mirrors(state)
      ensures accepted ==> QueuedBehind(old(requests), rs, requests) && OnlyAdded(old(state), rs, state)
      ensures accepted ==> forall i :: 0 <= i < |rs| ==> rs[i] in state.reqs && IsAdded(rs[i].Value(), rs[i].mapId, rs[i].layerId, rs[i].tiles, multiset(rs)[rs[i]])
      ensures !accepted ==> state == old(state) && requests == old(requests) && Valid()
      ensures !accepted ==> forall i :: 0 <= i < |rs| ==> IsRefused(rs[i].Value(), rs[i].mapId, rs[i].layerId, rs[i].tiles, access[i], multiset(rs)[rs[i]])
      ensures !accepted ==> forall i :: 0 <= i < |rs| ==> (rs[i].done == [] <==> rs[i].tiles == [] && access[i] == Success)
      ensures (forall i, j :: 0 <= i < j < |rs| ==> rs[i] != rs[j]) ==> Valid()
    {
      accepted := CheckAll(rs, access);
      assert Mirrors(state);
      if accepted {
        if forall i, j :: 0 <= i < j < |rs| ==> rs[i] != rs[j] { AddAllKeeps(state, rs); }
        AddBundle(rs);
      } else {
        Refuse(rs, access);
        assert Mirrors(state);
      }
    }

    /** Removes a queued request and marks it; a request that is not queued is left alone. */
    method AbortRequest(r: LayerTilesRequest)
      requires Valid() && r in state.reqs
      modifies this`state, this`requests, r
      ensures state == Apply(old(state), Abort(r)) && Valid()
    {
      StepKeeps(state, Abort(r));
      Withdraw(r);
    }

    /** Steps outside the lock leave requests, list and key set alone. */
    ghost method Note(step: Step<LayerTilesRequest>)
      requires Mirrors(state) && Known(state) && JobsKnown(state.reqs.Keys, state.workers, state.lost)
      requires Enabled(state, step) && (step.Fetch? || step.Fail?)
      modifies this`state
      ensures state == Apply(old(state), step) && Mirrors(state)
    {
      OutsideLock(state, step);
      state := Apply(state, step);
    }

    ghost method Advance(step: Step<LayerTilesRequest>)
      requires Valid() && Enabled(state, step) && (step.Fetch? || step.Fail?)
      modifies this`state
      ensures state == Apply(old(state), step) && Valid()
    {
      StepKeeps(state, step);
      Note(step);
    }

    /** The source has answered, outside the lock. */
    method Fetched(ghost w: nat)
      requires Valid() && Enabled(state, Fetch(w))
      modifies this`state
      ensures state == Apply(old(state), Fetch(w)) && Valid()
    {
      Advance(Fetch(w));
    }

    method Store(key: Key, ghost w: nat)
      requires Mirrors(state) && Known(state) && JobsKnown(state.reqs.Keys, state.workers, state.lost)
      requires Enabled(state, Put(w)) && state.workers[w].phase.job.key == key
      modifies this`state, this`cache
      ensures state == Apply(old(state), Put(w)) && Mirrors(state)
    {
      OutsideLock(state, Put(w));
      cache := cache + {key};
      state := Apply(state, Put(w));
    }

    /** The answer is put into the cache, outside the lock too. */
    method PutTileLayer(key: Key, ghost w: nat)
      requires Valid() && Enabled(state, Put(w)) && state.workers[w].phase.job.key == key
      modifies this`state, this`cache
      ensures state == Apply(old(state), Put(w)) && Valid()
    {
      StepKeeps(state, Put(w));
      Store(key, w);
    }

    method Deliver(job: Job<LayerTilesRequest>, ghost w: nat)
      requires Mirrors(state) && w < |state.workers| && state.workers[w].phase == Stored(job) && job.req in state.reqs
      modifies this`state, this`jobsInProgress, job.req
      ensures state == CompleteJob(old(state), w) && Mirrors(state)
    {
      assert state.reqs[job.req] == job.req.Value();
      state := CompleteJob(state, w);
      jobsInProgress := jobsInProgress - {job.key};
      job.req.NotifyResult(job.key.tile);
      assert state.reqs.Keys == old(state).reqs.Keys;
    }

    /** Under the lock again: the key is no longer in progress and the result is delivered. */
    method Finish(job: Job<LayerTilesRequest>, ghost w: nat)
      requires Valid() && Enabled(state, Complete(w)) && state.workers[w].phase.job == job
      modifies this`state, this`jobsInProgress, job.req
      ensures state == Apply(old(state), Complete(w)) && Valid()
    {
      StepKeeps(state, Complete(w));
      assert Busy(state.workers, w);
      Deliver(job, w);
    }

    /** An exception ends the job; nothing that is shared is touched. */
    method GiveUp(ghost w: nat)
      requires Valid() && Enabled(state, Fail(w))
      modifies this`state
      ensures state == Apply(old(state), Fail(w)) && Valid()
    {
      Advance(Fail(w));
    }
  }

  // ---- bundles of requests ----------------------------------------------

  /** Whether a source has the layer of a request, and lets the client use it. */
  predicate Access(a: Status) { a == Success || a == NoDataSource || a == Unauthorized }

  /** The answer is one for each request, however often the bundle names it. */
  ghost predicate Granted(rs: seq<LayerTilesRequest>, access: seq<Status>) {
    && |access| == |rs| && (forall i :: 0 <= i < |rs| ==> Access(access[i]))
    && forall i, j :: 0 <= i < j < |rs| && rs[i] == rs[j] ==> access[i] == access[j]
  }

  function Repeat(r: Request, s: Status, times: nat): Request {
    if times == 0 then r else Scheduler.SetStatus(Repeat(r, s, times - 1), s)
  }

  /** A request that a refused bundle names some times: for its own reason each time, or once
      because of the others. A request that is done already is not told. */
  function Refused(r: Request, access: Status, times: nat): Request {
    if access != Success then Told(r, access, times)
    else if r.status == Open then Scheduler.SetStatus(r, Aborted)
    else r
  }

  lemma {:induction false} RepeatDone(r: Request, s: Status, times: nat)
    requires times > 0 && s != Open
    ensures Repeat(r, s, times).done != [] && Repeat(r, s, times).tiles == r.tiles && Repeat(r, s, times).status == s
  {
    if times > 1 { RepeatDone(r, s, times - 1); }
  }

  ghost predicate AllNew(s: State<LayerTilesRequest>, rs: seq<LayerTilesRequest>)
    reads rs
  {
    forall i :: 0 <= i < |rs| ==> rs[i] !in s.reqs && rs[i].Value() == NewRequest(rs[i].mapId, rs[i].layerId, rs[i].tiles)
  }

  /** All of the bundle added, in order. */
  ghost function AddAll(s: State<LayerTilesRequest>, rs: seq<LayerTilesRequest>): State<LayerTilesRequest>
    decreases |rs|
  {
    if rs == [] then s
    else
      var front, r := AddAll(s, rs[..|rs| - 1]), rs[|rs| - 1];
      SchedulerRuns.AddRequest(front, r, if r in front.reqs then front.reqs[r] else NewRequest(r.mapId, r.layerId, r.tiles))
  }

  lemma {:induction false} AddAllIds(s: State<LayerTilesRequest>, rs: seq<LayerTilesRequest>, r: LayerTilesRequest)
    requires r !in s.reqs && r !in rs
    ensures r !in AddAll(s, rs).reqs
    decreases |rs|
  {
    if rs != [] { AddAllIds(s, rs[..|rs| - 1], r); }
  }

  lemma {:induction false} AddAllKeeps(s: State<LayerTilesRequest>, rs: seq<LayerTilesRequest>)
    requires Inv(s) && (forall i, j :: 0 <= i < j < |rs| ==> rs[i] != rs[j]) && forall i :: 0 <= i < |rs| ==> rs[i] !in s.reqs
    ensures Inv(AddAll(s, rs))
    decreases |rs|
  {
    if rs != [] {
      var front, r := rs[..|rs| - 1], rs[|rs| - 1];
      AddAllKeeps(s, front);
      AddAllIds(s, front, r);
      AddKeeps(AddAll(s, front), r, NewRequest(r.mapId, r.layerId, r.tiles));
    }
  }

  /** How often `r` has been named. */
  function Named(rs: seq<LayerTilesRequest>, i: nat, r: LayerTilesRequest): nat
    requires i <= |rs|
  {
    multiset(rs[..i])[r]
  }

  lemma NamedNext(rs: seq<LayerTilesRequest>, i: nat, next: nat, r: LayerTilesRequest)
    requires next == i + 1 <= |rs|
    ensures Named(rs, next, r) == Named(rs, i, r) + if rs[i] == r then 1 else 0
  {
    assert rs[..next] == rs[..i] + [rs[i]];
  }

  /** What the callbacks have been told: the same, some times. */
  predicate Only(done: seq<Status>, s: Status, times: nat) { |done| == times && forall k :: 0 <= k < times ==> done[k] == s }

  /** A new request that has been added some times. */
  predicate IsAdded(r: Request, mapId: string, layerId: string, tiles: seq<nat>, times: nat) {
    && r.mapId == mapId && r.layerId == layerId && r.tiles == tiles && r.next == r.results == 0 && r.delivered == []
    && if tiles == [] then r.status == Success && Only(r.done, Success, times) else r.status == Open && r.done == []
  }

  /** A new request of a refused bundle that names it some times: its own reason, if it has one,
      has been told each time; otherwise it has been aborted if it has tiles. */
  predicate IsRefused(r: Request, mapId: string, layerId: string, tiles: seq<nat>, access: Status, times: nat) {
    && r.mapId == mapId && r.layerId == layerId && r.tiles == tiles && r.next == r.results == 0 && r.delivered == []
    && if access != Success then r.status == access && Only(r.done, access, times)
       else if tiles == [] then r.status == Success && r.done == []
       else r.status == Aborted && r.done == [Aborted]
  }

  lemma RefusedIs(mapId: string, layerId: string, tiles: seq<nat>, access: Status, times: nat)
    requires Access(access) && times > 0
    ensures IsRefused(Refused(NewRequest(mapId, layerId, tiles), access, times), mapId, layerId, tiles, access, times)
  {
    if access != Success { RepeatIs(NewRequest(mapId, layerId, tiles), access, times); }
  }

  lemma {:induction false} RepeatIs(r: Request, s: Status, times: nat)
    requires s != Open && r.done == []
    ensures Repeat(r, s, times) == r.(status := if times == 0 then r.status else s, done := Repeat(r, s, times).done) && Only(Repeat(r, s, times).done, s, times)
  {
    if times > 0 { RepeatIs(r, s, times - 1); }
  }

  /** Where the requests with tiles are named, in order. */
  ghost predicate WithTiles(rs: seq<LayerTilesRequest>, picks: seq<nat>) {
    && (forall k, l :: 0 <= k < l < |picks| ==> picks[k] < picks[l])
    && (forall k :: 0 <= k < |picks| ==> picks[k] < |rs| && rs[picks[k]].tiles != [])
    && (forall i :: 0 <= i < |rs| && rs[i].tiles != [] ==> i in picks)
  }

  ghost predicate Behind(before: seq<LayerTilesRequest>, rs: seq<LayerTilesRequest>, picks: seq<nat>, after: seq<LayerTilesRequest>) {
    && WithTiles(rs, picks) && |after| == |before| + |picks| && before <= after
    && forall k :: 0 <= k < |picks| ==> after[|before| + k] == rs[picks[k]]
  }

  /** Behind `before` there are exactly the requests of the bundle that have tiles, in their
      order, and each as often as it is named. */
  ghost predicate QueuedBehind(before: seq<LayerTilesRequest>, rs: seq<LayerTilesRequest>, after: seq<LayerTilesRequest>) {
    exists picks :: Behind(before, rs, picks, after)
  }

  /** The service knows the requests of the bundle; the others, and all but the list, are as before. */
  ghost predicate OnlyAdded(s: State<LayerTilesRequest>, rs: seq<LayerTilesRequest>, s': State<LayerTilesRequest>) {
    && s'.reqs.Keys == s.reqs.Keys + (set r | r in rs) && (forall r :: r in s.reqs ==> r in s'.reqs && s'.reqs[r] == s.reqs[r])
    && s'.inProgress == s.inProgress && s'.cache == s.cache && s'.workers == s.workers && s'.lost == s.lost && s'.asked == s.asked
  }

  ghost predicate AllAdded(s: State<LayerTilesRequest>, rs: seq<LayerTilesRequest>) {
    forall r :: r in rs ==> r in s.reqs && IsAdded(s.reqs[r], r.mapId, r.layerId, r.tiles, multiset(rs)[r])
  }

  lemma AddedValues(s: State<LayerTilesRequest>, rs: seq<LayerTilesRequest>)
    requires AllAdded(s, rs) && s.reqs == Values(s.reqs.Keys)
    ensures forall i :: 0 <= i < |rs| ==> rs[i] in s.reqs && IsAdded(rs[i].Value(), rs[i].mapId, rs[i].layerId, rs[i].tiles, multiset(rs)[rs[i]])
  {
    forall i | 0 <= i < |rs| ensures rs[i] in s.reqs && IsAdded(rs[i].Value(), rs[i].mapId, rs[i].layerId, rs[i].tiles, multiset(rs)[rs[i]]) {
      assert rs[i] in rs;
    }
  }

  lemma OneMoreNamed(rs: seq<LayerTilesRequest>, front: seq<LayerTilesRequest>, r: LayerTilesRequest)
    requires rs == front + [r]
    ensures multiset(rs)[r] == multiset(front)[r] + 1 && (forall x :: x != r ==> multiset(rs)[x] == multiset(front)[x])
    ensures forall x :: x in rs <==> x in front || x == r
  {}

  lemma OneMorePick(before: seq<LayerTilesRequest>, front: seq<LayerTilesRequest>, r: LayerTilesRequest, picks: seq<nat>, after: seq<LayerTilesRequest>)
    requires Behind(before, front, picks, after)
    ensures if r.tiles == [] then Behind(before, front + [r], picks, after) else Behind(before, front + [r], picks + [|front|], after + [r])
  {
    var rs := front + [r];
    if r.tiles != [] {
      var more := picks + [|front|];
      forall i | 0 <= i < |rs| && rs[i].tiles != [] ensures i in more {
        if i < |front| {
          var k :| 0 <= k < |picks| && picks[k] == i;
          assert more[k] == i;
        } else {
          assert more[|picks|] == i;
        }
      }
    }
  }

  lemma OnlyAddedOnce(s: State<LayerTilesRequest>, front: seq<LayerTilesRequest>, s1: State<LayerTilesRequest>, r: LayerTilesRequest, value: Request, rs: seq<LayerTilesRequest>)
    requires OnlyAdded(s, front, s1) && r !in s.reqs && rs == front + [r]
    ensures OnlyAdded(s, rs, SchedulerRuns.AddRequest(s1, r, value))
  {}

  lemma AllAddedOnce(s1: State<LayerTilesRequest>, front: seq<LayerTilesRequest>, r: LayerTilesRequest, value: Request, rs: seq<LayerTilesRequest>)
    requires AllAdded(s1, front) && rs == front + [r]
    requires value == if r in front then s1.reqs[r] else NewRequest(r.mapId, r.layerId, r.tiles)
    ensures AllAdded(SchedulerRuns.AddRequest(s1, r, value), rs)
    ensures SchedulerRuns.AddRequest(s1, r, value).queue == if r.tiles == [] then s1.queue else s1.queue + [r]
  {
    OneMoreNamed(rs, front, r);
    assert r !in front ==> multiset(front)[r] == 0;
    assert IsAdded(value, r.mapId, r.layerId, r.tiles, if r in front then multiset(front)[r] else 0);
  }

  lemma AddAllLast(s: State<LayerTilesRequest>, rs: seq<LayerTilesRequest>, front: seq<LayerTilesRequest>, r: LayerTilesRequest)
    requires rs == front + [r]
    ensures var s1 := AddAll(s, front);
            AddAll(s, rs) == SchedulerRuns.AddRequest(s1, r, if r in s1.reqs then s1.reqs[r] else NewRequest(r.mapId, r.layerId, r.tiles))
  {
    assert rs[..|rs| - 1] == front;
  }

  /** What adding a bundle of new requests does. */
  lemma {:induction false} AddAllEffect(s: State<LayerTilesRequest>, rs: seq<LayerTilesRequest>) returns (picks: seq<nat>)
    requires forall r :: r in rs ==> r !in s.reqs
    ensures OnlyAdded(s, rs, AddAll(s, rs)) && AllAdded(AddAll(s, rs), rs) && Behind(s.queue, rs, picks, AddAll(s, rs).queue)
    decreases |rs|
  {
    picks := [];
    if rs != [] {
      var front, r := rs[..|rs| - 1], rs[|rs| - 1];
      picks := AddAllEffect(s, front);
      picks := OneMoreAdded(s, front, AddAll(s, front), r, rs, picks);
    }
  }

  lemma OneMoreAdded(s: State<LayerTilesRequest>, front: seq<LayerTilesRequest>, s1: State<LayerTilesRequest>, r: LayerTilesRequest, rs: seq<LayerTilesRequest>, picks: seq<nat>) returns (more: seq<nat>)
    requires rs == front + [r] && r !in s.reqs && s1 == AddAll(s, front)
    requires OnlyAdded(s, front, s1) && AllAdded(s1, front) && Behind(s.queue, front, picks, s1.queue)
    ensures OnlyAdded(s, rs, AddAll(s, rs)) && AllAdded(AddAll(s, rs), rs) && Behind(s.queue, rs, more, AddAll(s, rs).queue)
  {
    AddAllLast(s, rs, front, r);
    var value := if r in s1.reqs then s1.reqs[r] else NewRequest(r.mapId, r.layerId, r.tiles);
    assert r in s1.reqs <==> r in front;
    more := OneMore(s, front, s1, r, value, rs, picks, AddAll(s, rs));
  }

  lemma OneMore(s: State<LayerTilesRequest>, front: seq<LayerTilesRequest>, s1: State<LayerTilesRequest>, r: LayerTilesRequest, value: Request,
                rs: seq<LayerTilesRequest>, picks: seq<nat>, s2: State<LayerTilesRequest>) returns (more: seq<nat>)
    requires rs == front + [r] && r !in s.reqs && s2 == SchedulerRuns.AddRequest(s1, r, value)
    requires OnlyAdded(s, front, s1) && AllAdded(s1, front) && Behind(s.queue, front, picks, s1.queue)
    requires value == if r in front then s1.reqs[r] else NewRequest(r.mapId, r.layerId, r.tiles)
    ensures OnlyAdded(s, rs, s2) && AllAdded(s2, rs) && Behind(s.queue, rs, more, s2.queue)
  {
    OnlyAddedOnce(s, front, s1, r, value, rs);
    AllAddedOnce(s1, front, r, value, rs);
    OneMorePick(s.queue, front, r, picks, s1.queue);
    more := if r.tiles == [] then picks else picks + [|front|];
  }

  /** What the first pass makes of a request that it has met some times. */
  function Told(r: Request, access: Status, times: nat): Request {
    if access == Success then r else Repeat(r, access, times)
  }

  /** The first `n` requests of the bundle have been told. */
  ghost predicate ToldSoFar(rs: seq<LayerTilesRequest>, access: seq<Status>, n: nat, was: map<LayerTilesRequest, Request>)
    reads rs
  {
    && n <= |rs| == |access|
    && forall j :: 0 <= j < |rs| ==> rs[j] in was && rs[j].Value() == Told(was[rs[j]], access[j], Named(rs, n, rs[j]))
  }

  /** One request of the first pass. */
  method CheckOne(rs: seq<LayerTilesRequest>, access: seq<Status>, i: nat, next: nat, ghost was: map<LayerTilesRequest, Request>)
    requires Granted(rs, access) && next == i + 1 <= |rs| && ToldSoFar(rs, access, i, was)
    modifies rs[i]
    ensures ToldSoFar(rs, access, next, was)
  {
    forall j | 0 <= j < |rs| ensures Named(rs, next, rs[j]) == Named(rs, i, rs[j]) + if rs[i] == rs[j] then 1 else 0 {
      NamedNext(rs, i, next, rs[j]);
    }
    if access[i] != Success {
      rs[i].SetStatus(access[i]);
    }
  }

  predicate AllGranted(access: seq<Status>, n: nat)
    requires n <= |access|
  {
    forall j :: 0 <= j < n ==> access[j] == Success
  }

  lemma GrantedNext(access: seq<Status>, i: nat, next: nat)
    requires next == i + 1 <= |access|
    ensures AllGranted(access, next) <==> AllGranted(access, i) && access[i] == Success
  {}

  lemma NamedInAll(rs: seq<LayerTilesRequest>, n: nat)
    requires n == |rs|
    ensures forall r :: r in rs ==> Named(rs, n, r) == multiset(rs)[r]
  {
    assert rs[..n] == rs;
  }

  lemma AllTold(rs: seq<LayerTilesRequest>, access: seq<Status>, n: nat, was: map<LayerTilesRequest, Request>)
    requires ToldSoFar(rs, access, n, was) && n == |rs|
    ensures forall i :: 0 <= i < |rs| ==> rs[i].Value() == Told(was[rs[i]], access[i], multiset(rs)[rs[i]])
  {
    NamedInAll(rs, n);
  }

  lemma NoneTold(rs: seq<LayerTilesRequest>, access: seq<Status>, was: map<LayerTilesRequest, Request>)
    requires |rs| == |access| && forall r :: r in rs ==> r in was && was[r] == r.Value()
    ensures ToldSoFar(rs, access, 0, was)
  {}

  /** First pass: requests that cannot be served are marked. */
  method CheckAll(rs: seq<LayerTilesRequest>, access: seq<Status>) returns (available: bool)
    requires Granted(rs, access)
    modifies rs
    ensures available <==> forall i :: 0 <= i < |rs| ==> access[i] == Success
    ensures forall i :: 0 <= i < |rs| ==> rs[i].Value() == Told(old(rs[i].Value()), access[i], multiset(rs)[rs[i]])
  {
    available := true;
    ghost var was := map r | r in rs :: r.Value();
    NoneTold(rs, access, was);
    var i := 0;
    while i < |rs|
      invariant 0 <= i <= |rs| && (available <==> AllGranted(access, i))
      invariant ToldSoFar(rs, access, i, was)
    {
      var next := i + 1;
      GrantedNext(access, i, next);
      CheckOne(rs, access, i, next, was);
      if access[i] != Success { available := false; }
      i := next;
    }
    AllTold(rs, access, i, was);
  }

  /** Second pass of a bundle that is refused. */
  method AbortOpen(rs: seq<LayerTilesRequest>)
    modifies rs
    ensures forall i :: 0 <= i < |rs| ==>
              rs[i].Value() == if old(rs[i].Value()).status == Open then Scheduler.SetStatus(old(rs[i].Value()), Aborted) else old(rs[i].Value())
  {
    for i := 0 to |rs|
      invariant forall j :: 0 <= j < |rs| ==>
                  rs[j].Value() == if old(rs[j].Value()).status == Open && rs[j] in rs[..i] then Scheduler.SetStatus(old(rs[j].Value()), Aborted)
                                   else old(rs[j].Value())
    {
      assert rs[..i + 1] == rs[..i] + [rs[i]];
      if rs[i].status == Open {
        rs[i].SetStatus(Aborted);
      }
    }
    assert rs[..|rs|] == rs;
  }

  method Refuse(rs: seq<LayerTilesRequest>, ghost access: seq<Status>)
    requires Granted(rs, access)
    requires forall i :: 0 <= i < |rs| ==>
               rs[i].Value() == Told(NewRequest(rs[i].mapId, rs[i].layerId, rs[i].tiles), access[i], multiset(rs)[rs[i]])
    modifies rs
    ensures forall i :: 0 <= i < |rs| ==>
              rs[i].Value() == Refused(NewRequest(rs[i].mapId, rs[i].layerId, rs[i].tiles), access[i], multiset(rs)[rs[i]])
    ensures forall i :: 0 <= i < |rs| ==> IsRefused(rs[i].Value(), rs[i].mapId, rs[i].layerId, rs[i].tiles, access[i], multiset(rs)[rs[i]])
    ensures forall i :: 0 <= i < |rs| ==> (rs[i].done == [] <==> rs[i].tiles == [] && access[i] == Success)
  {
    forall i | 0 <= i < |rs| && access[i] != Success ensures rs[i].status != Open {
      RepeatDone(NewRequest(rs[i].mapId, rs[i].layerId, rs[i].tiles), access[i], multiset(rs)[rs[i]]);
    }
    AbortOpen(rs);
    forall i | 0 <= i < |rs| ensures IsRefused(rs[i].Value(), rs[i].mapId, rs[i].layerId, rs[i].tiles, access[i], multiset(rs)[rs[i]]) {
      RefusedIs(rs[i].mapId, rs[i].layerId, rs[i].tiles, access[i], multiset(rs)[rs[i]]);
    }
  }

  lemma OutsideLock<Id>(s: State<Id>, step: Step<Id>)
    requires Known(s) && JobsKnown(s.reqs.Keys, s.workers, s.lost) && Enabled(s, step) && (step.Fetch? || step.Put? || step.Fail?)
    ensures var s' := Apply(s, step);
            && s'.reqs == s.reqs && s'.queue == s.queue && s'.inProgress == s.inProgress
            && s'.cache == if step.Put? then s.cache + {s.workers[step.w].phase.job.key} else s.cache
  {}
}
