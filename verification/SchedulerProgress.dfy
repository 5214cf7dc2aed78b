/** How much a run of the service can do: every step that gets something done uses up work that
    was requested, so that runs settle, with every request that is served a success. */
module SchedulerProgress {
  import opened Scheduler
  import opened SchedulerRuns
  import opened SchedulerProperties

  // ---- tiles not yet handed out -----------------------------------------

  lemma {:induction false} UndispatchedConcat<Id>(reqs: map<Id, Request>, a: seq<Id>, b: seq<Id>)
    requires (forall id :: id in a ==> id in reqs) && (forall id :: id in b ==> id in reqs)
    ensures Undispatched(reqs, a + b) == Undispatched(reqs, a) + Undispatched(reqs, b)
    decreases |b|
  {
    if b == [] {
      assert a + b == a;
    } else {
      UndispatchedConcat(reqs, a, b[..|b| - 1]);
      assert (a + b)[..|a + b| - 1] == a + b[..|b| - 1];
    }
  }

  lemma UndispatchedLast<Id>(reqs: map<Id, Request>, q: seq<Id>, id: Id)
    requires (forall i :: i in q ==> i in reqs) && id in reqs && reqs[id].next <= |reqs[id].tiles|
    ensures (forall i :: i in q + [id] ==> i in reqs) && Undispatched(reqs, q + [id]) == Undispatched(reqs, q) + |reqs[id].tiles| - reqs[id].next
  {
    assert (q + [id])[..|q|] == q;
  }

  lemma UndispatchedMoved<Id>(reqs: map<Id, Request>, q: seq<Id>, at: nat)
    requires at < |q| && forall id :: id in q ==> id in reqs
    ensures (forall id :: id in MovedToEnd(q, at) ==> id in reqs) && Undispatched(reqs, MovedToEnd(q, at)) == Undispatched(reqs, q)
  {
    MoveToEnd(q, at);
    var front, back, moved := q[..at], q[at + 1..], [q[at]];
    assert q == front + (moved + back);
    UndispatchedConcat(reqs, front, moved + back);
    UndispatchedConcat(reqs, moved, back);
    UndispatchedConcat(reqs, front + back, moved);
    UndispatchedConcat(reqs, front, back);
  }

  lemma {:induction false} UndispatchedUnfinished<Id>(reqs: map<Id, Request>, q: seq<Id>)
    requires forall id :: id in q ==> id in reqs
    ensures Undispatched(reqs, Unfinished(reqs, q)) == Undispatched(reqs, q)
    decreases |q|
  {
    if q != [] {
      var front, id := Unfinished(reqs, q[..|q| - 1]), q[|q| - 1];
      UndispatchedUnfinished(reqs, q[..|q| - 1]);
      assert (front + [id])[..|front|] == front;
    }
  }

  lemma {:induction false} UndispatchedWithout<Id>(reqs: map<Id, Request>, q: seq<Id>, id: Id)
    requires forall i :: i in q ==> i in reqs
    ensures Undispatched(reqs, Without(q, id)) <= Undispatched(reqs, q)
    decreases |q|
  {
    if q != [] {
      var front, last := Without(q[..|q| - 1], id), q[|q| - 1];
      UndispatchedWithout(reqs, q[..|q| - 1], id);
      assert (front + [last])[..|front|] == front;
    }
  }

  /** Only the tiles of the queued requests and their `next` count. */
  lemma {:induction false} UndispatchedSame<Id>(reqs: map<Id, Request>, reqs': map<Id, Request>, q: seq<Id>)
    requires forall id :: id in q ==> id in reqs && id in reqs' && reqs'[id].tiles == reqs[id].tiles && reqs'[id].next == reqs[id].next
    ensures Undispatched(reqs', q) == Undispatched(reqs, q)
    decreases |q|
  {
    if q != [] { UndispatchedSame(reqs, reqs', q[..|q| - 1]); }
  }

  function Tiles<Id(==)>(s: State<Id>): nat
    requires Known(s)
  {
    Undispatched(s.reqs, s.queue)
  }

  /** A walk uses up tiles if it changes any request. */
  lemma {:induction false} ScanUses<Id>(s: State<Id>, w: nat, pos: nat, served: bool)
    requires Known(s) && w < |s.workers| && pos <= |s.queue|
    ensures var s' := Scan(s, w, pos, served).0; (s'.reqs == s.reqs && s'.queue == s.queue) || Tiles(s') < Tiles(s)
    decreases |s.queue| - pos
  {
    if pos < |s.queue| {
      var id := s.queue[pos];
      match Scheduler.At(s, s.workers[w].source, id)
      case Pass => ScanUses(s, w, pos + 1, served);
      case Cached =>
        UndispatchedFalls(s.reqs, s.queue, id, Serve(s, id).reqs[id]);
        ScanUses(Serve(s, id), w, pos + 1, true);
      case Take =>
        var s' := Dispatch(s, w, pos);
        UndispatchedFalls(s.reqs, s.queue, id, s'.reqs[id]);
        UndispatchedMoved(s'.reqs, s.queue, pos);
    }
  }

  lemma {:induction false} WalksUses<Id>(s: State<Id>, w: nat)
    requires Known(s) && w < |s.workers| && s.workers[w].phase.Idle?
    ensures var s' := Walks(s, w); (s'.reqs == s.reqs && s'.queue == s.queue) || Tiles(s') < Tiles(s)
    decreases Undispatched(s.reqs, s.queue)
  {
    var (s', served) := Scan(s, w, 0, false);
    ScanKeepsWorker(s, w, 0, false);
    ScanFalls(s, w, 0, false);
    ScanUses(s, w, 0, false);
    if served && !Found(s', w) { WalksUses(s', w); }
  }

  // ---- work left --------------------------------------------------------

  /** Steps that a worker still has to take for its job. */
  function StepsLeft<Id>(p: Phase<Id>): nat {
    match p
    case Idle => 0
    case Dispatched(_) => 3
    case Fetched(_) => 2
    case Stored(_) => 1
  }

  function Pending<Id>(ws: seq<Worker<Id>>): nat {
    if ws == [] then 0 else Pending(ws[..|ws| - 1]) + StepsLeft(ws[|ws| - 1].phase)
  }

  lemma {:induction false} PendingUpdate<Id>(ws: seq<Worker<Id>>, w: nat, x: Worker<Id>)
    requires w < |ws|
    ensures Pending(ws[w := x]) + StepsLeft(ws[w].phase) == Pending(ws) + StepsLeft(x.phase)
    decreases |ws|
  {
    var n := |ws| - 1;
    if w == n {
      assert ws[w := x][..n] == ws[..n];
    } else {
      PendingUpdate(ws[..n], w, x);
      assert ws[w := x][..n] == ws[..n][w := x];
    }
  }

  /** A tile that is not handed out can cost four steps: a poll, and three of a worker. */
  function Work<Id(==)>(s: State<Id>): nat
    requires Known(s)
  {
    4 * Tiles(s) + Pending(s.workers)
  }

  /** A poll that serves or hands out a tile. */
  predicate Productive<Id(==)>(s: State<Id>, step: Step<Id>)
    requires Known(s) && Enabled(s, step)
  {
    step.Poll? && NextJob(s, step.w).reqs != s.reqs
  }

  /** A step that gets something done: such a poll, or a worker's step on its job. */
  predicate Effective<Id(==)>(s: State<Id>, step: Step<Id>)
    requires Known(s) && Enabled(s, step)
  {
    Productive(s, step) || step.Fetch? || step.Put? || step.Complete? || step.Fail?
  }

  function Requested<Id>(step: Step<Id>): nat { if step.Add? then |step.tiles| else 0 }

  function One(b: bool): nat { if b then 1 else 0 }

  lemma OneWorker<Id>(s: State<Id>, s': State<Id>, w: nat)
    requires w < |s.workers| && SameBut(s, s', w)
    ensures s'.workers == s.workers[w := s'.workers[w]]
  {}

  lemma PollUses<Id>(s: State<Id>, w: nat)
    requires Known(s) && w < |s.workers| && s.workers[w].phase.Idle?
    ensures var s' := NextJob(s, w); Known(s') && Tiles(s') + One(s'.reqs != s.reqs) <= Tiles(s) && Work(s') + One(s'.reqs != s.reqs) <= Work(s)
  {
    var s1, s' := Walks(s, w), NextJob(s, w);
    var at := WalksShape(s, w);
    WalksUses(s, w);
    UndispatchedUnfinished(s1.reqs, s1.queue);
    OneWorker(s, s1, w);
    if Found(s1, w) { PendingUpdate(s.workers, w, s1.workers[w]); }
  }

  lemma AddUses<Id>(s: State<Id>, id: Id, r: Request)
    requires Known(s) && id !in s.reqs && r.next == 0
    ensures Known(AddRequest(s, id, r)) && Tiles(AddRequest(s, id, r)) <= Tiles(s) + |r.tiles| && AddRequest(s, id, r).workers == s.workers
  {
    var s' := AddRequest(s, id, r);
    UndispatchedSame(s.reqs, s'.reqs, s.queue);
    UndispatchedLast(s'.reqs, s.queue, id);
  }

  lemma AbortUses<Id>(s: State<Id>, id: Id)
    requires Known(s) && id in s.reqs
    ensures Known(AbortRequest(s, id)) && Tiles(AbortRequest(s, id)) <= Tiles(s) && AbortRequest(s, id).workers == s.workers
  {
    if id in s.queue {
      UndispatchedWithout(s.reqs, s.queue, id);
      UndispatchedSame(s.reqs, AbortRequest(s, id).reqs, Without(s.queue, id));
    }
  }

  lemma CompleteUses<Id>(s: State<Id>, w: nat)
    requires Sound(s) && Enabled(s, Complete(w))
    ensures var s' := Apply(s, Complete(w)); Known(s') && Tiles(s') == Tiles(s) && Work(s') < Work(s)
  {
    assert Busy(s.workers, w);
    var s' := CompleteJob(s, w);
    UndispatchedSame(s.reqs, s'.reqs, s.queue);
    PendingUpdate(s.workers, w, s'.workers[w]);
  }

  lemma PhaseUses<Id>(s: State<Id>, s': State<Id>, w: nat)
    requires Known(s) && w < |s.workers| && s'.reqs == s.reqs && s'.queue == s.queue
    requires |s'.workers| == |s.workers| && s'.workers == s.workers[w := s'.workers[w]] && StepsLeft(s'.workers[w].phase) < StepsLeft(s.workers[w].phase)
    ensures Tiles(s') == Tiles(s) && Work(s') < Work(s)
  {
    PendingUpdate(s.workers, w, s'.workers[w]);
  }

  /** Every step: what it gets done, it takes from what was left or is added by it. */
  lemma StepUses<Id>(s: State<Id>, step: Step<Id>)
    requires Sound(s) && Enabled(s, step)
    ensures var s' := Apply(s, step);
            && Known(s')
            && Tiles(s') + One(Productive(s, step)) <= Tiles(s) + Requested(step)
            && Work(s') + One(Effective(s, step)) <= Work(s) + 4 * Requested(step)
  {
    match step
    case Add(id, mapId, layerId, tiles) => AddUses(s, id, NewRequest(mapId, layerId, tiles));
    case Poll(w) => PollUses(s, w);
    case Complete(w) => CompleteUses(s, w);
    case Abort(id) => AbortUses(s, id);
    case Evict(_) =>
    case _ => PhaseUses(s, Apply(s, step), step.w);
  }

  // ---- runs -------------------------------------------------------------

  /** How many polls of a run serve or hand out a tile. */
  ghost function Polls<Id>(s: State<Id>, steps: seq<Step<Id>>): nat
    requires Inv(s) && CanRun(s, steps)
    decreases |steps|
  {
    if steps == [] then 0
    else
      StepKeeps(s, steps[0]);
      One(Productive(s, steps[0])) + Polls(Apply(s, steps[0]), steps[1..])
  }

  /** How many steps of a run get something done. */
  ghost function Done<Id>(s: State<Id>, steps: seq<Step<Id>>): nat
    requires Inv(s) && CanRun(s, steps)
    decreases |steps|
  {
    if steps == [] then 0
    else
      StepKeeps(s, steps[0]);
      One(Effective(s, steps[0])) + Done(Apply(s, steps[0]), steps[1..])
  }

  function AllRequested<Id>(steps: seq<Step<Id>>): nat {
    if steps == [] then 0 else Requested(steps[0]) + AllRequested(steps[1..])
  }

  /** Over any run: polls serve or hand out no more tiles than there were or were requested, and
      no more than four steps per tile get anything done. */
  lemma {:induction false} ProgressBound<Id>(s: State<Id>, steps: seq<Step<Id>>)
    requires Inv(s) && CanRun(s, steps)
    ensures Polls(s, steps) + Tiles(RunTo(s, steps)) <= Tiles(s) + AllRequested(steps)
    ensures Done(s, steps) + Work(RunTo(s, steps)) <= Work(s) + 4 * AllRequested(steps)
    decreases |steps|
  {
    if steps != [] {
      StepKeeps(s, steps[0]);
      StepUses(s, steps[0]);
      ProgressBound(Apply(s, steps[0]), steps[1..]);
    }
  }

  lemma {:induction false} NonePending<Id>(ws: seq<Worker<Id>>)
    requires forall w :: 0 <= w < |ws| ==> ws[w].phase.Idle?
    ensures Pending(ws) == 0
  {
    if ws != [] { NonePending(ws[..|ws| - 1]); }
  }

  /** From a service with nothing requested: at most one such poll per tile requested, and at
      most four steps that get anything done. */
  lemma ProgressFromNothing<Id>(s: State<Id>, steps: seq<Step<Id>>)
    requires Initial(s) && CanRun(s, steps)
    ensures Polls(s, steps) <= AllRequested(steps) && Done(s, steps) <= 4 * AllRequested(steps)
  {
    InitialInv(s);
    NonePending(s.workers);
    ProgressBound(s, steps);
  }

  // ---- nothing fails, nothing is aborted --------------------------------

  predicate NoneAborted<Id(==)>(s: State<Id>) { forall id :: id in s.reqs ==> s.reqs[id].status != Aborted }

  lemma {:induction false} ScanAborts<Id>(s: State<Id>, w: nat, pos: nat, served: bool)
    requires Known(s) && w < |s.workers| && pos <= |s.queue| && NoneAborted(s)
    ensures NoneAborted(Scan(s, w, pos, served).0)
    decreases |s.queue| - pos
  {
    if pos < |s.queue| {
      match Scheduler.At(s, s.workers[w].source, s.queue[pos])
      case Pass => ScanAborts(s, w, pos + 1, served);
      case Cached => ScanAborts(Serve(s, s.queue[pos]), w, pos + 1, true);
      case Take =>
    }
  }

  lemma {:induction false} WalksAborts<Id>(s: State<Id>, w: nat)
    requires Known(s) && w < |s.workers| && s.workers[w].phase.Idle? && NoneAborted(s)
    ensures NoneAborted(Walks(s, w))
    decreases Undispatched(s.reqs, s.queue)
  {
    var (s', served) := Scan(s, w, 0, false);
    ScanAborts(s, w, 0, false);
    ScanKeepsWorker(s, w, 0, false);
    ScanFalls(s, w, 0, false);
    if served && !Found(s', w) { WalksAborts(s', w); }
  }

  /** Nothing lost and nothing aborted, so far. */
  predicate Smooth<Id(==)>(s: State<Id>) { s.lost == [] && NoneAborted(s) }

  lemma SmoothStep<Id>(s: State<Id>, step: Step<Id>)
    requires Sound(s) && Enabled(s, step) && Smooth(s) && !step.Fail? && !step.Abort?
    ensures Smooth(Apply(s, step))
  {
    match step
    case Poll(w) =>
      WalksAborts(s, w);
      var at := WalksShape(s, w);
    case Complete(w) => assert Busy(s.workers, w);
    case _ =>
  }

  lemma {:induction false} SmoothRun<Id>(s: State<Id>, steps: seq<Step<Id>>)
    requires Inv(s) && CanRun(s, steps) && Smooth(s) && forall j :: 0 <= j < |steps| ==> !steps[j].Fail? && !steps[j].Abort?
    ensures Smooth(RunTo(s, steps))
    decreases |steps|
  {
    if steps != [] {
      StepKeeps(s, steps[0]);
      SmoothStep(s, steps[0]);
      SmoothRun(Apply(s, steps[0]), steps[1..]);
    }
  }

  /** No worker has a job, and no poll serves or hands out a tile: no step gets anything done. */
  predicate AtRest<Id(==)>(s: State<Id>)
    requires Known(s)
  {
    AllIdle(s) && forall w :: 0 <= w < |s.workers| ==> !Productive(s, Poll(w))
  }

  /** From a service with nothing requested, in a run without failures and aborts: where no step
      gets anything done any more, every request that some source serves is a success. */
  lemma RestIsSuccess<Id>(s: State<Id>, steps: seq<Step<Id>>, w: nat, id: Id)
    requires Initial(s) && CanRun(s, steps) && forall j :: 0 <= j < |steps| ==> !steps[j].Fail? && !steps[j].Abort?
    requires var e := RunTo(s, steps); AtRest(e) && id in e.reqs && w < |e.workers| && Serves(e.workers[w].source, e.reqs[id])
    ensures RunTo(s, steps).reqs[id].status == Success
  {
    InitialInv(s);
    SmoothRun(s, steps);
    var e := RunTo(s, steps);
    assert !Productive(e, Poll(w));
    var at := WalksShape(e, w);
    PollSettles(e, w, id);
  }
}
