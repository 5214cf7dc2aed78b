/** The cache: string pools and tiles as stored blobs, pools in memory, and what is left of
    them after a restart. */
module CacheStore {
  import opened Framing
  import opened PoolSync

  /** `tiles` and `poolBlobs` are stored; the rest is lost in a restart. `pending` is a tile
      whose strings have been stored while it has not been itself. */
  datatype Store = Store(tiles: map<nat, Layer>, poolBlobs: map<string, seq<Entry>>,
                         pools: map<string, Pool>, offsets: map<string, nat>, pending: seq<(nat, Layer)>)

  /** The pool object that reading a blob into a new pool gives. */
  function Loaded(statics: Pool, blob: seq<Entry>): (p: Pool)
  {
    var r := Received(PrefixMap(statics, |statics|), |statics|).Read(blob);
    if r.next == 0 then statics else seq(r.next, i requires 0 <= i < r.next => if i in r.strings then r.strings[i] else "")
  }

  /** What is known of a node's strings from the store alone. */
  function Stored(statics: Pool, s: Store, node: string): Pool {
    if node in s.poolBlobs then Loaded(statics, s.poolBlobs[node]) else statics
  }

  // ---- steps ------------------------------------------------------------

  datatype Step =
    | Open(node: string)
    | Grow(node: string, texts: seq<string>)
    | PutStrings(key: nat, layer: Layer)
    | PutTile
    | Abandon
    | Drop(key: nat)
    | Restart

  /** `getStringPool`: the pool in memory, or one made from the stored blob. */
  function OpenPool(statics: Pool, s: Store, node: string): Store {
    if node in s.pools then s
    else
      var p := Stored(statics, s, node);
      s.(pools := s.pools[node := p],
         offsets := if node in s.poolBlobs && node !in s.offsets then s.offsets[node := Highest(p)] else s.offsets)
  }

  /** The first half of `putTileLayer`: a pool with unstored strings is stored as a whole. */
  function StoreFrom(s: Store, key: nat, layer: Layer, p: Pool): Store {
    var known := OffsetOf(s.offsets, layer.node);
    var s' := s.(pending := [(key, layer)], offsets := s.offsets[layer.node := Max(known, Highest(p))]);
    if known < Highest(p) then s'.(poolBlobs := s.poolBlobs[layer.node := Entries(p, 0)]) else s'
  }

  /** The same with the pool that this cache has for the layer's node. */
  function StoreStrings(s: Store, key: nat, layer: Layer): Store
    requires layer.node in s.pools
  {
    StoreFrom(s, key, layer, s.pools[layer.node])
  }

  /** A layer to be stored uses strings of the pool that this cache has in memory for its node. */
  predicate Allowed(s: Store, step: Step) {
    match step
    case Grow(node, _) => node in s.pools
    case PutStrings(_, layer) =>
      layer.node in s.pools && forall id :: id in layer.ids ==> id < |s.pools[layer.node]|
    case PutTile => s.pending != []
    case _ => true
  }

  function After(statics: Pool, s: Store, step: Step): Store
    requires Allowed(s, step)
  {
    match step
    case Open(node) => OpenPool(statics, s, node)
    case Grow(node, texts) =>
      var grown: Pool := s.pools[node] + texts;
      s.(pools := s.pools[node := grown])
    case PutStrings(key, layer) => StoreStrings(s, key, layer)
    case PutTile => s.(tiles := s.tiles[s.pending[0].0 := s.pending[0].1], pending := [])
    case Abandon => s.(pending := [])
    case Drop(key) => s.(tiles := s.tiles - {key})
    case Restart => s.(pools := map[], offsets := map[], pending := [])
  }

  // ---- the invariant ----------------------------------------------------

  /** Only whole pools are stored. */
  ghost predicate IsBlob(statics: Pool, blob: seq<Entry>) {
    exists p: Pool :: statics <= p && blob == Entries(p, 0)
  }

  predicate Covers(p: Pool, ids: set<nat>) { forall id :: id in ids ==> id < |p| }

  ghost predicate NodeFits(statics: Pool, s: Store, node: string) {
    && (node in s.poolBlobs ==> IsBlob(statics, s.poolBlobs[node]))
    && (node in s.pools ==> Stored(statics, s, node) <= s.pools[node])
    && OffsetOf(s.offsets, node) <= Highest(Stored(statics, s, node))
    && (node !in s.poolBlobs ==> OffsetOf(s.offsets, node) == 0)
  }

  /** At every point, each stored tile uses only strings that are stored. */
  ghost predicate Consistent(statics: Pool, s: Store) {
    && (forall node :: NodeFits(statics, s, node))
    && (forall key :: key in s.tiles ==> Covers(Stored(statics, s, s.tiles[key].node), s.tiles[key].ids))
    && (forall i :: 0 <= i < |s.pending| ==> Covers(Stored(statics, s, s.pending[i].1.node), s.pending[i].1.ids))
  }

  /** A whole pool is read back as it was. */
  lemma LoadStored(statics: Pool, p: Pool)
    requires statics <= p
    ensures Loaded(statics, Entries(p, 0)) == p
  {
    var r := Received(PrefixMap(statics, |statics|), |statics|);
    assert IsPrefix(r, p);
    ReadFrom(r, p, 0);
  }

  lemma StoredStartsWithStatics(statics: Pool, s: Store, node: string)
    requires NodeFits(statics, s, node)
    ensures statics <= Stored(statics, s, node)
  {
    if node in s.poolBlobs {
      var p: Pool :| statics <= p && s.poolBlobs[node] == Entries(p, 0);
      LoadStored(statics, p);
    }
  }

  /** What is stored of a node's strings. */
  lemma StringsStored(statics: Pool, s: Store, key: nat, layer: Layer)
    requires NodeFits(statics, s, layer.node) && layer.node in s.pools
    ensures var s' := StoreStrings(s, key, layer);
            && NodeFits(statics, s', layer.node)
            && Stored(statics, s, layer.node) <= Stored(statics, s', layer.node)
            && Stored(statics, s', layer.node) == s.pools[layer.node]
  {
    StoredStartsWithStatics(statics, s, layer.node);
    var p := s.pools[layer.node];
    LoadStored(statics, p);
  }

  lemma OnlyThatNode(statics: Pool, s: Store, key: nat, layer: Layer, node: string)
    requires layer.node in s.pools && node != layer.node
    ensures Stored(statics, StoreStrings(s, key, layer), node) == Stored(statics, s, node)
  {}

  lemma PutStringsNode(statics: Pool, s: Store, key: nat, layer: Layer, node: string)
    requires NodeFits(statics, s, node) && NodeFits(statics, s, layer.node) && layer.node in s.pools
    ensures NodeFits(statics, StoreStrings(s, key, layer), node)
    ensures Stored(statics, s, node) <= Stored(statics, StoreStrings(s, key, layer), node)
  {
    StringsStored(statics, s, key, layer);
    if node != layer.node { OnlyThatNode(statics, s, key, layer, node); }
  }

  lemma PutStringsKeeps(statics: Pool, s: Store, key: nat, layer: Layer)
    requires Consistent(statics, s) && Allowed(s, PutStrings(key, layer))
    ensures Consistent(statics, StoreStrings(s, key, layer))
    ensures forall node :: Stored(statics, s, node) <= Stored(statics, StoreStrings(s, key, layer), node)
  {
    var s' := StoreStrings(s, key, layer);
    assert NodeFits(statics, s, layer.node);
    StringsStored(statics, s, key, layer);
    forall node ensures NodeFits(statics, s', node) && Stored(statics, s, node) <= Stored(statics, s', node) {
      assert NodeFits(statics, s, node);
      PutStringsNode(statics, s, key, layer, node);
    }
    forall k | k in s'.tiles ensures Covers(Stored(statics, s', s'.tiles[k].node), s'.tiles[k].ids) {
      CoversMore(Stored(statics, s, s.tiles[k].node), Stored(statics, s', s.tiles[k].node), s.tiles[k].ids);
    }
  }

  lemma CoversMore(p: Pool, p': Pool, ids: set<nat>)
    requires p <= p' && Covers(p, ids)
    ensures Covers(p', ids) && forall id :: id in ids ==> p'[id] == p[id]
  {}

  lemma OpenKeeps(statics: Pool, s: Store, node: string)
    requires Consistent(statics, s)
    ensures Consistent(statics, OpenPool(statics, s, node))
  {
    var s' := OpenPool(statics, s, node);
    forall n ensures NodeFits(statics, s', n) && Stored(statics, s', n) == Stored(statics, s, n) {
      assert NodeFits(statics, s, n);
    }
  }

  lemma OtherKeeps(statics: Pool, s: Store, step: Step)
    requires Consistent(statics, s) && Allowed(s, step) && (step.Grow? || step.PutTile? || step.Abandon? || step.Drop? || step.Restart?)
    ensures Consistent(statics, After(statics, s, step))
  {
    var s' := After(statics, s, step);
    forall n ensures NodeFits(statics, s', n) && Stored(statics, s', n) == Stored(statics, s, n) {
      assert NodeFits(statics, s, n);
    }
  }

  /** Every step keeps the store consistent, and nothing that is stored of a node's strings is
      ever renumbered or dropped. */
  lemma StepKeeps(statics: Pool, s: Store, step: Step)
    requires Consistent(statics, s) && Allowed(s, step)
    ensures Consistent(statics, After(statics, s, step))
    ensures forall node :: Stored(statics, s, node) <= Stored(statics, After(statics, s, step), node)
  {
    match step
    case Open(node) => OpenKeeps(statics, s, node);
    case PutStrings(key, layer) => PutStringsKeeps(statics, s, key, layer);
    case _ => OtherKeeps(statics, s, step);
  }

  ghost predicate CanRun(statics: Pool, s: Store, steps: seq<Step>)
    decreases |steps|
  {
    steps == [] || (Allowed(s, steps[0]) && CanRun(statics, After(statics, s, steps[0]), steps[1..]))
  }

  ghost function RunTo(statics: Pool, s: Store, steps: seq<Step>): Store
    requires CanRun(statics, s, steps)
    decreases |steps|
  {
    if steps == [] then s else RunTo(statics, After(statics, s, steps[0]), steps[1..])
  }

  /** After any run, with any number of restarts and also between storing strings and storing
      the tile: the store is consistent, and every id that was stored means what it meant. */
  lemma {:induction false} StaysConsistent(statics: Pool, s: Store, steps: seq<Step>)
    requires Consistent(statics, s) && CanRun(statics, s, steps)
    ensures Consistent(statics, RunTo(statics, s, steps))
    ensures forall node :: Stored(statics, s, node) <= Stored(statics, RunTo(statics, s, steps), node)
    decreases |steps|
  {
    if steps != [] {
      StepKeeps(statics, s, steps[0]);
      var s1 := After(statics, s, steps[0]);
      StaysConsistent(statics, s1, steps[1..]);
      forall node ensures Stored(statics, s, node) <= Stored(statics, RunTo(statics, s, steps), node) {
        assert Stored(statics, s, node) <= Stored(statics, s1, node) <= Stored(statics, RunTo(statics, s1, steps[1..]), node);
      }
    }
  }

  lemma EmptyIsConsistent(statics: Pool)
    ensures Consistent(statics, Store(map[], map[], map[], map[], []))
  {}

  /** The pool a cached tile is read with: the one in memory, or made from the stored blob. */
  function PoolFor(statics: Pool, s: Store, node: string): Pool {
    if node in s.pools then s.pools[node] else Stored(statics, s, node)
  }

  /** A tile that was cached resolves, whenever it is read again, to the strings it had:
      after any run, whichever of them were still only in memory. */
  lemma OldTilesResolve(statics: Pool, s: Store, steps: seq<Step>, key: nat)
    requires Consistent(statics, s) && CanRun(statics, s, steps) && key in s.tiles
    ensures var l, e := s.tiles[key], RunTo(statics, s, steps);
            forall id :: id in l.ids ==> id < |PoolFor(statics, s, l.node)| && id < |PoolFor(statics, e, l.node)|
                                         && PoolFor(statics, e, l.node)[id] == PoolFor(statics, s, l.node)[id]
  {
    StaysConsistent(statics, s, steps);
    var l, e := s.tiles[key], RunTo(statics, s, steps);
    assert NodeFits(statics, s, l.node) && NodeFits(statics, e, l.node);
    CoversMore(Stored(statics, s, l.node), PoolFor(statics, s, l.node), l.ids);
    CoversMore(Stored(statics, s, l.node), Stored(statics, e, l.node), l.ids);
    CoversMore(Stored(statics, e, l.node), PoolFor(statics, e, l.node), l.ids);
  }

  /** After a restart all that was stored is there; a pool that was is as it was, and the cache
      says that it has it. */
  lemma Reopened(statics: Pool, s: Store, node: string, p: Pool)
    requires statics <= p && node in s.poolBlobs && s.poolBlobs[node] == Entries(p, 0)
    ensures var e := After(statics, After(statics, s, Restart), Open(node));
            && e.tiles == s.tiles && e.poolBlobs == s.poolBlobs
            && e.pools == map[node := p] && e.offsets == map[node := |p| - 1]
  {
    LoadStored(statics, p);
  }

  /** A layer whose strings are another pool than the cache's: what was stored for its node
      keeps its meaning if and only if that pool has nothing to store, or extends it. */
  lemma OtherPool(statics: Pool, s: Store, key: nat, layer: Layer, p: Pool)
    requires NodeFits(statics, s, layer.node) && statics <= p
    ensures Stored(statics, s, layer.node) <= Stored(statics, StoreFrom(s, key, layer, p), layer.node)
            <==> Highest(p) <= OffsetOf(s.offsets, layer.node) || Stored(statics, s, layer.node) <= p
  {
    LoadStored(statics, p);
  }

  // ---- the cache as an object -------------------------------------------

  class Cache {
    const statics: Pool
    var tileBlobs: map<nat, Layer>
    var stringPoolBlobs: map<string, seq<Entry>>
    var stringPoolPerNodeId: map<string, Pool>
    var stringPoolOffsets: map<string, nat>
    var cacheHits: nat
    var cacheMisses: nat

    ghost function State(): Store
      reads this
    {
      Store(tileBlobs, stringPoolBlobs, stringPoolPerNodeId, stringPoolOffsets, [])
    }

    ghost predicate Valid()
      reads this
    {
      Consistent(statics, State())
    }

    constructor (statics: Pool)
      ensures Valid() && this.statics == statics && State() == Store(map[], map[], map[], map[], [])
    {
      this.statics := statics;
      tileBlobs, stringPoolBlobs, stringPoolPerNodeId, stringPoolOffsets := map[], map[], map[], map[];
      cacheHits, cacheMisses := 0, 0;
      EmptyIsConsistent(statics);
    }

    method GetStringPool(nodeId: string) returns (pool: Pool)
      requires Valid()
      modifies this`stringPoolPerNodeId, this`stringPoolOffsets
      ensures Valid() && State() == After(statics, old(State()), Open(nodeId))
      ensures pool == PoolFor(statics, old(State()), nodeId) && nodeId in stringPoolPerNodeId && stringPoolPerNodeId[nodeId] == pool
      ensures stringPoolPerNodeId == old(stringPoolPerNodeId)[nodeId := pool]
      ensures stringPoolOffsets ==
                if nodeId !in old(stringPoolPerNodeId) && nodeId in stringPoolBlobs && nodeId !in old(stringPoolOffsets)
                then old(stringPoolOffsets)[nodeId := |pool| - 1] else old(stringPoolOffsets)
    {
      StepKeeps(statics, State(), Open(nodeId));
      if nodeId in stringPoolPerNodeId {
        return stringPoolPerNodeId[nodeId];
      }
      pool := statics;
      if nodeId in stringPoolBlobs {
        pool := Loaded(statics, stringPoolBlobs[nodeId]);
        if nodeId !in stringPoolOffsets {
          stringPoolOffsets := stringPoolOffsets[nodeId := Highest(pool)];
        }
      }
      stringPoolPerNodeId := stringPoolPerNodeId[nodeId := pool];
    }

    /** Where a message of the writer goes. */
    method OnMessage(key: nat, m: Msg)
      modifies this`tileBlobs, this`stringPoolBlobs
      ensures tileBlobs == if m.Tile? then old(tileBlobs)[key := m.layer] else old(tileBlobs)
      ensures stringPoolBlobs == if m.Strings? then old(stringPoolBlobs)[m.node := m.entries] else old(stringPoolBlobs)
    {
      match m
      case Tile(layer) => tileBlobs := tileBlobs[key := layer];
      case Strings(node, entries) => stringPoolBlobs := stringPoolBlobs[node := entries];
      case End =>
    }

    method StoreMessages(key: nat, layer: Layer, messages: seq<Msg>, ghost p: Pool, ghost known: nat, ghost ok: bool)
      requires messages == Update(p, known, false, layer.node) + if ok then [Tile(layer)] else []
      modifies this`tileBlobs, this`stringPoolBlobs
      ensures tileBlobs == if ok then old(tileBlobs)[key := layer] else old(tileBlobs)
      ensures stringPoolBlobs == if known < Highest(p) then old(stringPoolBlobs)[layer.node := Entries(p, 0)] else old(stringPoolBlobs)
    {
      ghost var blobs, tiles, update := stringPoolBlobs, tileBlobs, |Update(p, known, false, layer.node)|;
      for i := 0 to |messages|
        invariant stringPoolBlobs == if update == 1 && i >= 1 then blobs[layer.node := Entries(p, 0)] else blobs
        invariant tileBlobs == if ok && i == |messages| then tiles[key := layer] else tiles
      {
        OnMessage(key, messages[i]);
      }
    }

    /** A tile with its strings, stored by a writer that does not send differences: first the
        pool, if it has unstored strings, then the tile. A layer of a type that cannot be sent
        raises in between. The cache stays consistent if the pool is the one it has in memory. */
    method PutTileLayer(key: nat, layer: Layer, strings: Pool) returns (ok: bool)
      modifies this`tileBlobs, this`stringPoolBlobs, this`stringPoolOffsets
      ensures ok <==> Supported(layer.layerType)
      ensures var s1 := StoreFrom(old(State()), key, layer, strings);
              State() == if ok then s1.(tiles := s1.tiles[key := layer], pending := []) else s1.(pending := [])
      ensures tileBlobs == if ok then old(tileBlobs)[key := layer] else old(tileBlobs)
      ensures var known := if layer.node in old(stringPoolOffsets) then old(stringPoolOffsets)[layer.node] else 0;
              if known < |strings| - 1 then
                && stringPoolOffsets == old(stringPoolOffsets)[layer.node := |strings| - 1]
                && layer.node in stringPoolBlobs && stringPoolBlobs == old(stringPoolBlobs)[layer.node := stringPoolBlobs[layer.node]]
                && IsUpdate(Strings(layer.node, stringPoolBlobs[layer.node]), layer.node, strings, 0)
              else stringPoolOffsets == old(stringPoolOffsets)[layer.node := known] && stringPoolBlobs == old(stringPoolBlobs)
      ensures old(Valid()) && Allowed(old(State()), PutStrings(key, layer)) && strings == old(stringPoolPerNodeId)[layer.node] ==>
                Valid() && State() == After(statics, After(statics, old(State()), PutStrings(key, layer)), if ok then PutTile else Abandon)
    {
      if Valid() && Allowed(State(), PutStrings(key, layer)) && strings == stringPoolPerNodeId[layer.node] {
        StepKeeps(statics, State(), PutStrings(key, layer));
        StepKeeps(statics, StoreStrings(State(), key, layer), if Supported(layer.layerType) then PutTile else Abandon);
      }
      var writer := new Writer(stringPoolOffsets, false);
      ok := writer.Write(layer, strings);
      StoreMessages(key, layer, writer.sent, strings, OffsetOf(stringPoolOffsets, layer.node), ok);
      stringPoolOffsets := writer.stringPoolOffsets;
    }

    /** The cached tile and the pool that it resolves with. */
    method GetTileLayer(key: nat) returns (found: bool, layer: Layer, pool: Pool)
      requires Valid()
      modifies this`stringPoolPerNodeId, this`stringPoolOffsets, this`cacheHits, this`cacheMisses
      ensures Valid() && (found <==> key in tileBlobs)
      ensures found ==> layer == tileBlobs[key] && Covers(pool, layer.ids) && pool == PoolFor(statics, old(State()), layer.node)
      ensures State() == if found then After(statics, old(State()), Open(layer.node)) else old(State())
      ensures cacheHits == old(cacheHits) + (if found then 1 else 0) && cacheMisses == old(cacheMisses) + (if found then 0 else 1)
    {
      if key !in tileBlobs {
        cacheMisses := cacheMisses + 1;
        return false, Layer("", {}, Features, ""), statics;
      }
      layer := tileBlobs[key];
      assert NodeFits(statics, State(), layer.node);
      CoversMore(Stored(statics, State(), layer.node), PoolFor(statics, State(), layer.node), layer.ids);
      pool := GetStringPool(layer.node);
      cacheHits := cacheHits + 1;
      return true, layer, pool;
    }

    /** The highest string a data source need not send again; an unnamed node is refused. */
    method CachedStringPoolOffset(nodeId: string) returns (ok: bool, offset: nat)
      requires Valid()
      ensures ok <==> nodeId != ""
      ensures ok ==> offset == (if nodeId in stringPoolOffsets then stringPoolOffsets[nodeId] else 0) <= |Stored(statics, State(), nodeId)| - 1
    {
      assert NodeFits(statics, State(), nodeId);
      if nodeId == "" { return false, 0; }
      if nodeId in stringPoolOffsets { return true, stringPoolOffsets[nodeId]; }
      return true, 0;
    }
  }
}
