/** The tile job scheduler: requests queue up, workers take the next tile that is neither
    cached nor being worked on, fetch it, cache it, and deliver it. Every step is one region
    of code that runs under the lock, or one that runs outside it. */
module Scheduler {
  datatype Status = Open | Success | NoDataSource | Unauthorized | Aborted

  datatype Key = Key(layer: nat, mapId: string, layerId: string, tile: nat)

  /** What a worker knows of its data source: one map, and its layers with their types. */
  datatype Source = Source(mapId: string, layers: map<string, nat>)

  /** `delivered` is the log of result callbacks, `done` the one of done callbacks. */
  datatype Request = Request(mapId: string, layerId: string, tiles: seq<nat>, next: nat,
                             results: nat, status: Status, delivered: seq<nat>, done: seq<Status>)

  datatype Job<Id> = Job(key: Key, req: Id)

  datatype Phase<Id> = Idle | Dispatched(job: Job<Id>) | Fetched(job: Job<Id>) | Stored(job: Job<Id>)

  datatype Worker<Id> = Worker(source: Source, phase: Phase<Id>)

  /** `lost` holds the jobs that ended in an exception, `asked` the calls of data sources. */
  datatype State<Id(==)> = State(reqs: map<Id, Request>, queue: seq<Id>, inProgress: set<Key>, cache: set<Key>,
                             workers: seq<Worker<Id>>, lost: seq<Job<Id>>, asked: seq<Key>)

  // ---- requests ---------------------------------------------------------

  function NewRequest(mapId: string, layerId: string, tiles: seq<nat>): Request {
    Request(mapId, layerId, tiles, 0, 0, if tiles == [] then Success else Open, [], [])
  }

  function SetStatus(r: Request, s: Status): Request {
    r.(status := s, done := if s == Open then r.done else r.done + [s])
  }

  function NotifyResult(r: Request, tile: nat): Request {
    var r' := r.(results := r.results + 1, delivered := r.delivered + [tile]);
    if r'.results == |r.tiles| then SetStatus(r', Success) else r'
  }

  predicate Serves(src: Source, r: Request) { r.mapId == src.mapId && r.layerId in src.layers }

  function NextKey(src: Source, r: Request): Key
    requires Serves(src, r) && r.next < |r.tiles|
  {
    Key(src.layers[r.layerId], r.mapId, r.layerId, r.tiles[r.next])
  }

  // ---- the steps of nextJob ---------------------------------------------

  predicate Known<Id(==)>(s: State<Id>) { forall id :: id in s.queue ==> id in s.reqs }

  /** A cached tile goes to request `id` at once. */
  function Serve<Id(==)>(s: State<Id>, id: Id): State<Id>
    requires id in s.reqs && s.reqs[id].next < |s.reqs[id].tiles|
  {
    var r := s.reqs[id];
    s.(reqs := s.reqs[id := NotifyResult(r.(next := r.next + 1), r.tiles[r.next])])
  }

  /** Worker `w` gets the next tile of the request at `pos`, which moves to the end. */
  function Dispatch<Id(==)>(s: State<Id>, w: nat, pos: nat): State<Id>
    requires w < |s.workers| && pos < |s.queue| && s.queue[pos] in s.reqs
    requires var r := s.reqs[s.queue[pos]]; Serves(s.workers[w].source, r) && r.next < |r.tiles|
  {
    var id, src := s.queue[pos], s.workers[w].source;
    var r := s.reqs[id];
    var key := NextKey(src, r);
    s.(reqs := s.reqs[id := r.(next := r.next + 1)],
       queue := s.queue[..pos] + s.queue[pos + 1..] + [id],
       inProgress := s.inProgress + {key},
       workers := s.workers[w := Worker(src, Dispatched(Job(key, id)))])
  }

  /** What happens at one place of the queue. */
  datatype Visit = Pass | Cached | Take

  function At<Id(==)>(s: State<Id>, src: Source, id: Id): Visit
    requires id in s.reqs
  {
    var r := s.reqs[id];
    if !Serves(src, r) || r.next >= |r.tiles| then Pass
    else if NextKey(src, r) in s.cache then Cached
    else if NextKey(src, r) in s.inProgress then Pass
    else Take
  }

  /** One walk over the queue; the result says whether a cached tile was served. */
  function Scan<Id(==)>(s: State<Id>, w: nat, pos: nat, served: bool): (r: (State<Id>, bool))
    requires Known(s) && w < |s.workers| && pos <= |s.queue|
    ensures Known(r.0) && |r.0.workers| == |s.workers| && |r.0.queue| == |s.queue|
    decreases |s.queue| - pos
  {
    if pos == |s.queue| then (s, served)
    else
      match At(s, s.workers[w].source, s.queue[pos])
      case Pass => Scan(s, w, pos + 1, served)
      case Cached => Scan(Serve(s, s.queue[pos]), w, pos + 1, true)
      case Take => (Dispatch(s, w, pos), served)
  }

  /** A walk, place by place. */
  lemma ScanFrom<Id>(s: State<Id>, w: nat, pos: nat, next: nat, served: bool, id: Id)
    requires Known(s) && w < |s.workers| && next == pos + 1 <= |s.queue| && id == s.queue[pos]
    ensures Scan(s, w, pos, served) ==
              match At(s, s.workers[w].source, id)
              case Pass => Scan(s, w, next, served)
              case Cached => Scan(Serve(s, id), w, next, true)
              case Take => (Dispatch(s, w, pos), served)
  {}

  /** Tiles not yet handed out, over the queue. */
  function Undispatched<Id(==)>(reqs: map<Id, Request>, queue: seq<Id>): nat
    requires forall id :: id in queue ==> id in reqs
  {
    if queue == [] then 0
    else
      var r := reqs[queue[|queue| - 1]];
      Undispatched(reqs, queue[..|queue| - 1]) + (if r.next < |r.tiles| then |r.tiles| - r.next else 0)
  }

  lemma {:induction false} UndispatchedFalls<Id>(reqs: map<Id, Request>, queue: seq<Id>, id: Id, r: Request)
    requires (forall i :: i in queue ==> i in reqs) && id in reqs
    requires r.tiles == reqs[id].tiles && r.next == reqs[id].next + 1 <= |r.tiles|
    ensures Undispatched(reqs[id := r], queue) <= Undispatched(reqs, queue)
    ensures id in queue ==> Undispatched(reqs[id := r], queue) < Undispatched(reqs, queue)
    decreases |queue|
  {
    if queue != [] {
      UndispatchedFalls(reqs, queue[..|queue| - 1], id, r);
    }
  }

  predicate Found<Id(==)>(s: State<Id>, w: nat)
    requires w < |s.workers|
  {
    s.workers[w].phase.Dispatched?
  }

  lemma {:induction false} ScanFalls<Id>(s: State<Id>, w: nat, pos: nat, served: bool)
    requires Known(s) && w < |s.workers| && s.workers[w].phase.Idle? && pos <= |s.queue|
    ensures var (s', served') := Scan(s, w, pos, served);
            !Found(s', w) ==>
              && s'.queue == s.queue
              && Undispatched(s'.reqs, s.queue) <= Undispatched(s.reqs, s.queue)
              && (served' && !served ==> Undispatched(s'.reqs, s.queue) < Undispatched(s.reqs, s.queue))
    decreases |s.queue| - pos
  {
    if pos < |s.queue| {
      match At(s, s.workers[w].source, s.queue[pos])
      case Pass => ScanFalls(s, w, pos + 1, served);
      case Cached =>
        var s1 := Serve(s, s.queue[pos]);
        UndispatchedFalls(s.reqs, s.queue, s.queue[pos], s1.reqs[s.queue[pos]]);
        ScanFalls(s1, w, pos + 1, true);
      case Take =>
    }
  }

  /** Walks until one finds a job or serves nothing. */
  function Walks<Id(==)>(s: State<Id>, w: nat): (r: State<Id>)
    requires Known(s) && w < |s.workers| && s.workers[w].phase.Idle?
    ensures Known(r) && |r.workers| == |s.workers|
    decreases Undispatched(s.reqs, s.queue)
  {
    var (s', served) := Scan(s, w, 0, false);
    ScanKeepsWorker(s, w, 0, false);
    ScanFalls(s, w, 0, false);
    if served && !Found(s', w) then Walks(s', w) else s'
  }

  /** A walk leaves its worker idle, or with a job. */
  lemma {:induction false} ScanKeepsWorker<Id>(s: State<Id>, w: nat, pos: nat, served: bool)
    requires Known(s) && w < |s.workers| && pos <= |s.queue|
    ensures var s' := Scan(s, w, pos, served).0; s'.workers[w].source == s.workers[w].source && (s'.workers[w].phase == s.workers[w].phase || Found(s', w))
    decreases |s.queue| - pos
  {
    if pos < |s.queue| {
      match At(s, s.workers[w].source, s.queue[pos])
      case Pass => ScanKeepsWorker(s, w, pos + 1, served);
      case Cached => ScanKeepsWorker(Serve(s, s.queue[pos]), w, pos + 1, true);
      case Take =>
    }
  }

  /** The queue without the requests that are fully handed out. */
  function Unfinished<Id(==)>(reqs: map<Id, Request>, queue: seq<Id>): (q: seq<Id>)
    requires forall id :: id in queue ==> id in reqs
    ensures forall id :: id in q ==> id in queue && reqs[id].next != |reqs[id].tiles|
    ensures forall id :: id in queue && reqs[id].next != |reqs[id].tiles| ==> id in q
  {
    if queue == [] then []
    else
      var front, id := Unfinished(reqs, queue[..|queue| - 1]), queue[|queue| - 1];
      if reqs[id].next == |reqs[id].tiles| then front else front + [id]
  }

  function NextJob<Id(==)>(s: State<Id>, w: nat): State<Id>
    requires Known(s) && w < |s.workers| && s.workers[w].phase.Idle?
  {
    var s' := Walks(s, w);
    s'.(queue := Unfinished(s'.reqs, s'.queue))
  }
}
