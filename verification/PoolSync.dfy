/** The string dictionaries behind tile layers: the writer sends each peer only the strings
    it does not know yet, and the layers that use them. */
module PoolSync {
  import opened Framing
  import Bits

  // ---- pools ------------------------------------------------------------

  /** A sender's pool: string ids are positions, and strings are only ever appended. */
  type Pool = p: seq<string> | |p| >= 1 witness [""]

  function Highest(p: Pool): nat { |p| - 1 }

  datatype Entry = Entry(id: nat, text: string)

  /** `StringPool::write`: the strings from `offset` up to the highest. */
  function Entries(p: Pool, offset: nat): seq<Entry> {
    if offset > Highest(p) then [] else seq(|p| - offset, i requires 0 <= i < |p| - offset => Entry(offset + i, p[offset + i]))
  }

  /** A receiver's pool. Nothing forces the ids it gets to be contiguous. */
  datatype Received = Received(strings: map<nat, string>, next: nat) {
    function ReadOne(e: Entry): Received {
      Received(if e.id in strings then strings else strings[e.id := e.text], if e.id >= next then e.id + 1 else next)
    }

    /** `StringPool::read`. */
    function Read(es: seq<Entry>): Received
      decreases |es|
    {
      if es == [] then this else ReadOne(es[0]).Read(es[1..])
    }

    predicate Resolves(p: seq<string>, ids: set<nat>) {
      forall id :: id in ids ==> id < |p| && id in strings && strings[id] == p[id]
    }
  }

  function PrefixMap(p: seq<string>, m: nat): map<nat, string>
    requires m <= |p|
  {
    map i: nat | i < m :: p[i]
  }

  /** The receiver knows exactly the sender's first strings. */
  predicate IsPrefix(r: Received, p: Pool) { r.next <= |p| && r.strings == PrefixMap(p, r.next) }

  /** Reading the next string of a prefix, or one it has already. */
  lemma ReadOneKeeps(r: Received, p: Pool, id: nat)
    requires IsPrefix(r, p) && id <= r.next && id < |p|
    ensures IsPrefix(r.ReadOne(Entry(id, p[id])), p) && r.ReadOne(Entry(id, p[id])).next == if id == r.next then id + 1 else r.next
  {
    var r' := r.ReadOne(Entry(id, p[id]));
    assert r'.strings == PrefixMap(p, r'.next);
  }

  lemma FirstEntry(p: Pool, offset: nat)
    requires offset < |p|
    ensures Entries(p, offset) == [Entry(offset, p[offset])] + Entries(p, offset + 1)
  {
    var all, rest := Entries(p, offset), Entries(p, offset + 1);
    assert |all| == 1 + |rest|;
    forall i | 0 <= i < |rest| ensures all[i + 1] == rest[i] {}
  }

  lemma ReadNext(r: Received, e: Entry, rest: seq<Entry>)
    ensures r.Read([e] + rest) == r.ReadOne(e).Read(rest)
  {
    assert ([e] + rest)[1..] == rest;
  }

  /** The entries from `offset` on complete a prefix that reaches that far; those it has
      already change nothing. */
  lemma {:induction false} ReadFrom(r: Received, p: Pool, offset: nat)
    requires IsPrefix(r, p) && offset <= r.next
    ensures r.Read(Entries(p, offset)) == Received(PrefixMap(p, |p|), |p|)
    decreases |p| - offset
  {
    if offset < |p| {
      var e := Entry(offset, p[offset]);
      FirstEntry(p, offset);
      ReadOneKeeps(r, p, offset);
      ReadNext(r, e, Entries(p, offset + 1));
      ReadFrom(r.ReadOne(e), p, offset + 1);
    } else {
      assert r.next == |p|;
    }
  }

  /** Ids that no entry carries stay unknown. */
  lemma {:induction false} OnlyEntries(r: Received, es: seq<Entry>, id: nat)
    requires id !in r.strings && forall i :: 0 <= i < |es| ==> es[i].id != id
    ensures id !in r.Read(es).strings
    decreases |es|
  {
    if es != [] { OnlyEntries(r.ReadOne(es[0]), es[1..], id); }
  }

  /** The receiver ends up with the sender's pool exactly if the first string it is sent is
      not beyond the ones it has. */
  lemma CatchesUpIff(r: Received, p: Pool, offset: nat)
    requires IsPrefix(r, p) && offset <= Highest(p)
    ensures IsPrefix(r.Read(Entries(p, offset)), p) && r.Read(Entries(p, offset)).next == |p| <==> offset <= r.next
  {
    if offset <= r.next {
      ReadFrom(r, p, offset);
    } else {
      OnlyEntries(r, Entries(p, offset), r.next);
    }
  }

  // ---- the writer -------------------------------------------------------

  datatype LayerType = Features | Heightmap | OrthoImage | GLTF | SourceData

  /** A tile layer: its node, the string ids it uses, its type, and everything else. */
  datatype Layer = Layer(node: string, ids: set<nat>, layerType: LayerType, content: string)

  datatype Msg = Strings(node: string, entries: seq<Entry>) | Tile(layer: Layer) | End

  predicate Supported(t: LayerType) { t.Features? || t.SourceData? }

  /** The type that a message is sent with. */
  function KindOf(m: Msg): Bits.byte {
    match m
    case Strings(_, _) => STRING_POOL
    case Tile(layer) => if layer.layerType.Features? then TILE_FEATURE_LAYER else TILE_SOURCE_DATA_LAYER
    case End => END_OF_STREAM
  }

  function OffsetOf(offsets: map<string, nat>, node: string): nat {
    if node in offsets then offsets[node] else 0
  }

  /** The dictionary update that goes before a layer, if the peer needs one. */
  function Update(p: Pool, known: nat, differential: bool, node: string): seq<Msg> {
    if known < Highest(p) then [Strings(node, Entries(p, if differential then known + 1 else 0))] else []
  }

  function Max(a: nat, b: nat): nat { if a < b then b else a }

  /** The strings of `p` from the one with id `first` on, each with its id. */
  predicate IsUpdate(m: Msg, node: string, p: seq<string>, first: nat) {
    && m.Strings? && m.node == node && first + |m.entries| == |p|
    && forall i :: 0 <= i < |m.entries| ==> m.entries[i] == Entry(first + i, p[first + i])
  }

  lemma UpdateIs(p: Pool, known: nat, differential: bool, node: string, update: seq<Msg>)
    requires update == Update(p, known, differential, node)
    ensures if known < |p| - 1 then |update| == 1 && IsUpdate(update[0], node, p, if differential then known + 1 else 0) else update == []
  {}

  lemma SentAt(was: seq<Msg>, update: seq<Msg>, tile: seq<Msg>, now: seq<Msg>, at: nat)
    requires now == was + update + tile && |update| <= 1 && at == |was|
    ensures update == [] ==> now == was + tile
    ensures |update| == 1 ==> |now| == at + 1 + |tile| && now[at] == update[0] && now == was + [now[at]] + tile
  {}

  class Writer {
    var stringPoolOffsets: map<string, nat>
    const differentialStringUpdates: bool
    /** The calls of `onMessage`. */
    var sent: seq<Msg>

    constructor (stringPoolOffsets: map<string, nat>, differentialStringUpdates: bool)
      ensures this.stringPoolOffsets == stringPoolOffsets && this.differentialStringUpdates == differentialStringUpdates && sent == []
    {
      this.stringPoolOffsets, this.differentialStringUpdates := stringPoolOffsets, differentialStringUpdates;
      sent := [];
    }

    method SendMessage(m: Msg)
      modifies this`sent
      ensures sent == old(sent) + [m]
    {
      sent := sent + [m];
    }

    /** A layer, after the strings it may need. A layer of another type raises, but only after
        the strings have been sent. */
    method Write(layer: Layer, strings: Pool) returns (ok: bool)
      modifies this
      ensures ok <==> Supported(layer.layerType)
      ensures var known := OffsetOf(old(stringPoolOffsets), layer.node);
              && stringPoolOffsets == old(stringPoolOffsets)[layer.node := Max(known, Highest(strings))]
              && sent == old(sent) + Update(strings, known, differentialStringUpdates, layer.node) + (if ok then [Tile(layer)] else [])
      ensures ok <==> layer.layerType.Features? || layer.layerType.SourceData?
      ensures var known := if layer.node in old(stringPoolOffsets) then old(stringPoolOffsets)[layer.node] else 0;
              var tile := if ok then [Tile(layer)] else [];
              if known < |strings| - 1 then
                && stringPoolOffsets == old(stringPoolOffsets)[layer.node := |strings| - 1]
                && |sent| == |old(sent)| + 1 + |tile| && sent == old(sent) + [sent[|old(sent)|]] + tile
                && IsUpdate(sent[|old(sent)|], layer.node, strings, if differentialStringUpdates then known + 1 else 0)
              else
                stringPoolOffsets == old(stringPoolOffsets)[layer.node := known] && sent == old(sent) + tile
    {
      ghost var was, update := sent, Update(strings, OffsetOf(stringPoolOffsets, layer.node), differentialStringUpdates, layer.node);
      UpdateIs(strings, OffsetOf(stringPoolOffsets, layer.node), differentialStringUpdates, layer.node, update);
      SendStrings(layer.node, strings);
      SentAt(was, update, [], sent, |was|);
      if !Supported(layer.layerType) { return false; }
      SendMessage(Tile(layer));
      SentAt(was, update, [Tile(layer)], sent, |was|);
      return true;
    }

    /** The strings that the peer does not know yet, or all of them; the writer counts them as sent. */
    method SendStrings(node: string, strings: Pool)
      modifies this
      ensures var known := OffsetOf(old(stringPoolOffsets), node);
              && stringPoolOffsets == old(stringPoolOffsets)[node := Max(known, Highest(strings))]
              && sent == old(sent) + Update(strings, known, differentialStringUpdates, node)
    {
      if node !in stringPoolOffsets {
        stringPoolOffsets := stringPoolOffsets[node := 0];
      }
      var highestStringKnownToClient := stringPoolOffsets[node];
      var highestString := Highest(strings);
      if highestStringKnownToClient < highestString {
        var stringUpdateOffset := 0;
        if differentialStringUpdates {
          stringUpdateOffset := highestStringKnownToClient + 1;
        }
        SendMessage(Strings(node, Entries(strings, stringUpdateOffset)));
        stringPoolOffsets := stringPoolOffsets[node := highestString];
      }
    }

    method SendEndOfStream()
      modifies this`sent
      ensures sent == old(sent) + [End]
    {
      SendMessage(End);
    }
  }

  // ---- the receiver -----------------------------------------------------

  /** Pools per node, and the layers delivered so far. */
  datatype Client = Client(pools: map<string, Received>, delivered: seq<Layer>)

  /** A pool that is not there yet is created with the static strings. */
  function PoolOf(c: Client, statics: Pool, node: string): Received {
    if node in c.pools then c.pools[node] else Received(PrefixMap(statics, |statics|), |statics|)
  }

  function Receive(statics: Pool, c: Client, m: Msg): Client {
    match m
    case Strings(node, es) => c.(pools := c.pools[node := PoolOf(c, statics, node).Read(es)])
    case Tile(layer) => Client(c.pools[layer.node := PoolOf(c, statics, layer.node)], c.delivered + [layer])
    case End => c
  }

  function ReceiveAll(statics: Pool, c: Client, ms: seq<Msg>): Client
    decreases |ms|
  {
    if ms == [] then c else ReceiveAll(statics, Receive(statics, c, ms[0]), ms[1..])
  }

  // ---- any interleaving -------------------------------------------------

  /** Sender and receiver together; a pool that was never used holds the static strings. */
  datatype Net = Net(pools: map<string, Pool>, offsets: map<string, nat>, client: Client)

  datatype Step = Grow(node: string, texts: seq<string>) | Send(layer: Layer)

  function Sender(n: Net, statics: Pool, node: string): Pool {
    if node in n.pools then n.pools[node] else statics
  }

  /** A layer only uses strings of its node's pool. */
  predicate Enabled(statics: Pool, n: Net, step: Step) {
    step.Send? ==> Supported(step.layer.layerType) && forall id :: id in step.layer.ids ==> id < |Sender(n, statics, step.layer.node)|
  }

  function Apply(statics: Pool, differential: bool, n: Net, step: Step): Net {
    match step
    case Grow(node, texts) =>
      var grown: Pool := Sender(n, statics, node) + texts;
      n.(pools := n.pools[node := grown])
    case Send(layer) =>
      var p, known := Sender(n, statics, layer.node), OffsetOf(n.offsets, layer.node);
      n.(offsets := n.offsets[layer.node := Max(known, Highest(p))],
         client := ReceiveAll(statics, n.client, Update(p, known, differential, layer.node) + [Tile(layer)]))
  }

  /** Every pool of the receiver is a prefix of the sender's that reaches at least as far as
      the writer believes, and every delivered layer resolves. */
  ghost predicate Synced(statics: Pool, n: Net) {
    && (forall node :: NodeSynced(statics, n, node))
    && forall i :: 0 <= i < |n.client.delivered| ==>
         var l := n.client.delivered[i];
         PoolOf(n.client, statics, l.node).Resolves(Sender(n, statics, l.node), l.ids)
  }

  ghost predicate NodeSynced(statics: Pool, n: Net, node: string) {
    var r := PoolOf(n.client, statics, node);
    && statics <= Sender(n, statics, node)
    && IsPrefix(r, Sender(n, statics, node)) && OffsetOf(n.offsets, node) < r.next
  }

  lemma PrefixOfGrown(r: Received, p: Pool, texts: seq<string>)
    requires IsPrefix(r, p)
    ensures IsPrefix(r, p + texts)
  {}

  lemma GrowKeeps(statics: Pool, differential: bool, n: Net, node: string, texts: seq<string>)
    requires Synced(statics, n)
    ensures Synced(statics, Apply(statics, differential, n, Grow(node, texts)))
  {
    var n' := Apply(statics, differential, n, Grow(node, texts));
    forall k ensures NodeSynced(statics, n', k) {
      assert NodeSynced(statics, n, k);
      PrefixOfGrown(PoolOf(n.client, statics, k), Sender(n, statics, k), texts);
    }
  }

  /** What one write leaves the receiver with. */
  lemma SendEffect(statics: Pool, differential: bool, n: Net, layer: Layer)
    requires NodeSynced(statics, n, layer.node)
    ensures var p, known, n' := Sender(n, statics, layer.node), OffsetOf(n.offsets, layer.node), Apply(statics, differential, n, Send(layer));
            && n'.client.delivered == n.client.delivered + [layer]
            && PoolOf(n'.client, statics, layer.node) == Received(PrefixMap(p, |p|), |p|)
            && (forall k :: k != layer.node ==> PoolOf(n'.client, statics, k) == PoolOf(n.client, statics, k))
  {
    var p, known := Sender(n, statics, layer.node), OffsetOf(n.offsets, layer.node);
    var r, update := PoolOf(n.client, statics, layer.node), Update(p, known, differential, layer.node);
    if update != [] {
      ReadFrom(r, p, if differential then known + 1 else 0);
      var c1 := Receive(statics, n.client, update[0]);
      assert (update + [Tile(layer)])[1..] == [Tile(layer)];
      assert ReceiveAll(statics, n.client, update + [Tile(layer)]) == ReceiveAll(statics, c1, [Tile(layer)]) == Receive(statics, c1, Tile(layer));
    } else {
      assert update + [Tile(layer)] == [Tile(layer)];
      assert ReceiveAll(statics, n.client, [Tile(layer)]) == Receive(statics, n.client, Tile(layer));
    }
  }

  lemma SendKeeps(statics: Pool, differential: bool, n: Net, layer: Layer)
    requires Synced(statics, n) && Enabled(statics, n, Send(layer))
    ensures Synced(statics, Apply(statics, differential, n, Send(layer)))
  {
    var n' := Apply(statics, differential, n, Send(layer));
    assert NodeSynced(statics, n, layer.node);
    SendEffect(statics, differential, n, layer);
    forall k ensures NodeSynced(statics, n', k) { assert NodeSynced(statics, n, k); }
    forall i | 0 <= i < |n'.client.delivered|
      ensures var l := n'.client.delivered[i]; PoolOf(n'.client, statics, l.node).Resolves(Sender(n', statics, l.node), l.ids)
    {
      if i < |n.client.delivered| { assert n'.client.delivered[i] == n.client.delivered[i]; }
    }
  }

  ghost predicate CanRun(statics: Pool, differential: bool, n: Net, steps: seq<Step>)
    decreases |steps|
  {
    steps == [] || (Enabled(statics, n, steps[0]) && CanRun(statics, differential, Apply(statics, differential, n, steps[0]), steps[1..]))
  }

  function RunTo(statics: Pool, differential: bool, n: Net, steps: seq<Step>): Net
    decreases |steps|
  {
    if steps == [] then n else RunTo(statics, differential, Apply(statics, differential, n, steps[0]), steps[1..])
  }

  /** For any interleaving of pool growth and writes over any number of nodes: the receiver's
      pools stay prefixes of the sender's, and every layer ever delivered resolves each of its
      ids to the sender's string. */
  lemma {:induction false} StaysSynced(statics: Pool, differential: bool, n: Net, steps: seq<Step>)
    requires Synced(statics, n) && CanRun(statics, differential, n, steps)
    ensures Synced(statics, RunTo(statics, differential, n, steps))
    decreases |steps|
  {
    if steps != [] {
      match steps[0] {
        case Grow(node, texts) => GrowKeeps(statics, differential, n, node, texts);
        case Send(layer) => SendKeeps(statics, differential, n, layer);
      }
      StaysSynced(statics, differential, Apply(statics, differential, n, steps[0]), steps[1..]);
    }
  }

  /** A new writer and a new reader are in sync; so are a writer and a reader that reported
      the highest ids of its pools. */
  lemma StartsSynced(statics: Pool, n: Net)
    requires n.client.delivered == [] && forall node :: statics <= Sender(n, statics, node)
    requires forall node :: IsPrefix(PoolOf(n.client, statics, node), Sender(n, statics, node)) && PoolOf(n.client, statics, node).next >= 1
    requires forall node :: node in n.offsets ==> n.offsets[node] < PoolOf(n.client, statics, node).next
    ensures Synced(statics, n)
  {}

  // ---- a writer that believes too much ----------------------------------

  /** The writer counts string `id` as sent, but the receiver does not have it. */
  ghost predicate Missing(statics: Pool, n: Net, node: string, id: nat) {
    id <= OffsetOf(n.offsets, node) && id !in PoolOf(n.client, statics, node).strings
  }

  lemma MissingStays(statics: Pool, n: Net, step: Step, node: string, id: nat)
    requires Missing(statics, n, node, id)
    ensures Missing(statics, Apply(statics, true, n, step), node, id)
  {
    if step.Send? {
      var l := step.layer;
      var p, known := Sender(n, statics, l.node), OffsetOf(n.offsets, l.node);
      var update := Update(p, known, true, l.node);
      if update != [] {
        if l.node == node { OnlyEntries(PoolOf(n.client, statics, node), Entries(p, known + 1), id); }
        var c1 := Receive(statics, n.client, update[0]);
        assert (update + [Tile(l)])[1..] == [Tile(l)];
        assert ReceiveAll(statics, n.client, update + [Tile(l)]) == ReceiveAll(statics, c1, [Tile(l)]) == Receive(statics, c1, Tile(l));
      } else {
        assert update + [Tile(l)] == [Tile(l)];
        assert ReceiveAll(statics, n.client, [Tile(l)]) == Receive(statics, n.client, Tile(l));
      }
    }
  }

  /** With differential updates such a string is never sent, so no layer that uses it ever
      resolves. */
  lemma {:induction false} MissingForever(statics: Pool, n: Net, steps: seq<Step>, node: string, id: nat, p: seq<string>, ids: set<nat>)
    requires Missing(statics, n, node, id) && id in ids
    ensures var e := RunTo(statics, true, n, steps); Missing(statics, e, node, id) && !PoolOf(e.client, statics, node).Resolves(p, ids)
    decreases |steps|
  {
    if steps != [] {
      MissingStays(statics, n, steps[0], node, id);
      MissingForever(statics, Apply(statics, true, n, steps[0]), steps[1..], node, id, p, ids);
    }
  }

  // ---- over the wire ----------------------------------------------------

  /** A message as it is framed: its type, and whatever bytes its body is written as. */
  function Encoded(body: Msg -> seq<Bits.byte>, m: Msg): Message { Message(KindOf(m), body(m)) }

  function EncodeAll(body: Msg -> seq<Bits.byte>, ms: seq<Msg>): seq<Message>
    decreases |ms|
  {
    if ms == [] then [] else [Encoded(body, ms[0])] + EncodeAll(body, ms[1..])
  }

  /** Bodies below 4 GiB that decode to what was encoded; the end message has none. */
  ghost predicate Coded(body: Msg -> seq<Bits.byte>, dec: Message -> Msg, m: Msg) {
    |body(m)| < 0x1_0000_0000 && if m.End? then body(m) == [] else dec(Encoded(body, m)) == m
  }

  /** A tile layer that the writer accepts: its frame, kind 2 for features and 3 for source
      data, makes the reader call the handler with it, and leaves nothing unread. */
  lemma SupportedIsTaken<S>(h: Handler<S>, out: S, before: Bits.byte, size: nat, layer: Layer, content: seq<Bits.byte>)
    requires Supported(layer.layerType) && |content| < 0x1_0000_0000
    ensures var kind := if layer.layerType.Features? then 2 else 3;
            Feed(h, Idle(out, before, size), Frame(Message(KindOf(Tile(layer)), content)))
              == Running(State(ReadHeader, kind, |content|, [], h(out, Message(kind, content))))
  {
    FrameBytes(Message(KindOf(Tile(layer)), content));
    KindDecides(h, out, before, size, KindOf(Tile(layer)), content);
  }

  /** The other two kinds of messages: strings are taken too, the end is not. */
  lemma OtherKinds<S>(h: Handler<S>, out: S, before: Bits.byte, size: nat, node: string, entries: seq<Entry>, content: seq<Bits.byte>)
    requires |content| < 0x1_0000_0000
    ensures Feed(h, Idle(out, before, size), Frame(Message(KindOf(Strings(node, entries)), content)))
              == Running(State(ReadHeader, 1, |content|, [], h(out, Message(1, content))))
    ensures Feed(h, Idle(out, before, size), Frame(Message(KindOf(End), []))) == Running(State(ReadHeader, 128, 0, [], out))
  {
    FrameBytes(Message(KindOf(Strings(node, entries)), content));
    KindDecides(h, out, before, size, 1, content);
    FrameBytes(Message(KindOf(End), []));
    KindDecides(h, out, before, size, 128, []);
  }

  function Decoding(statics: Pool, dec: Message -> Msg): Handler<Client> {
    (c: Client, m: Message) => Receive(statics, c, dec(m))
  }

  lemma {:induction false} HandledIsReceived(statics: Pool, body: Msg -> seq<Bits.byte>, dec: Message -> Msg, c: Client, ms: seq<Msg>)
    requires forall i :: 0 <= i < |ms| ==> Coded(body, dec, ms[i])
    ensures Handled(Decoding(statics, dec), c, EncodeAll(body, ms)) == ReceiveAll(statics, c, ms)
    ensures forall i :: 0 <= i < |EncodeAll(body, ms)| ==> Sendable(EncodeAll(body, ms)[i])
    decreases |ms|
  {
    if ms != [] {
      assert Coded(body, dec, ms[0]);
      HandledIsReceived(statics, body, dec, Receive(statics, c, ms[0]), ms[1..]);
      assert EncodeAll(body, ms)[1..] == EncodeAll(body, ms[1..]);
    }
  }

  /** The bytes of any messages, cut into any chunks, leave the client as the messages would. */
  lemma OverTheWire(statics: Pool, body: Msg -> seq<Bits.byte>, dec: Message -> Msg, c: Client, ms: seq<Msg>, chunks: seq<seq<Bits.byte>>)
    requires forall i :: 0 <= i < |ms| ==> Coded(body, dec, ms[i])
    requires Flatten(chunks) == Frames(EncodeAll(body, ms))
    ensures var r := FeedAll(Decoding(statics, dec), Idle(c, 0, 0), chunks);
            r.Running? && r.st.unread == [] && r.st.out == ReceiveAll(statics, c, ms)
  {
    HandledIsReceived(statics, body, dec, c, ms);
    ChunkedRoundTrip(Decoding(statics, dec), Idle(c, 0, 0), EncodeAll(body, ms), chunks);
  }

  // ---- a whole run over the wire ----------------------------------------

  /** What one step makes the writer send, and what a run does. */
  function SentIn(statics: Pool, differential: bool, n: Net, step: Step): seq<Msg> {
    match step
    case Grow(_, _) => []
    case Send(layer) => Update(Sender(n, statics, layer.node), OffsetOf(n.offsets, layer.node), differential, layer.node) + [Tile(layer)]
  }

  function SentBy(statics: Pool, differential: bool, n: Net, steps: seq<Step>): seq<Msg>
    decreases |steps|
  {
    if steps == [] then []
    else SentIn(statics, differential, n, steps[0]) + SentBy(statics, differential, Apply(statics, differential, n, steps[0]), steps[1..])
  }

  lemma {:induction false} ReceiveBoth(statics: Pool, c: Client, ms: seq<Msg>, more: seq<Msg>)
    ensures ReceiveAll(statics, c, ms + more) == ReceiveAll(statics, ReceiveAll(statics, c, ms), more)
    decreases |ms|
  {
    if ms == [] {
      assert ms + more == more;
    } else {
      assert (ms + more)[1..] == ms[1..] + more;
      ReceiveBoth(statics, Receive(statics, c, ms[0]), ms[1..], more);
    }
  }

  /** The client of a run is what receiving the writer's messages makes of it. */
  lemma {:induction false} RunIsReceived(statics: Pool, differential: bool, n: Net, steps: seq<Step>)
    ensures RunTo(statics, differential, n, steps).client == ReceiveAll(statics, n.client, SentBy(statics, differential, n, steps))
    decreases |steps|
  {
    if steps != [] {
      var first, n1 := SentIn(statics, differential, n, steps[0]), Apply(statics, differential, n, steps[0]);
      var rest := SentBy(statics, differential, n1, steps[1..]);
      ReceiveBoth(statics, n.client, first, rest);
      RunIsReceived(statics, differential, n1, steps[1..]);
    }
  }

  /** The bytes of a whole run, over any number of nodes and with pools growing in between, cut
      into any chunks: the reader has handled all of them, its pools are prefixes of the
      sender's, and every layer it has delivered resolves. */
  lemma RunOverTheWire(statics: Pool, differential: bool, n: Net, steps: seq<Step>, body: Msg -> seq<Bits.byte>, dec: Message -> Msg, chunks: seq<seq<Bits.byte>>)
    requires Synced(statics, n) && CanRun(statics, differential, n, steps)
    requires forall i :: 0 <= i < |SentBy(statics, differential, n, steps)| ==> Coded(body, dec, SentBy(statics, differential, n, steps)[i])
    requires Flatten(chunks) == Frames(EncodeAll(body, SentBy(statics, differential, n, steps)))
    ensures var r, e := FeedAll(Decoding(statics, dec), Idle(n.client, 0, 0), chunks), RunTo(statics, differential, n, steps);
            r.Running? && r.st.unread == [] && r.st.out == e.client && Synced(statics, e)
  {
    OverTheWire(statics, body, dec, n.client, SentBy(statics, differential, n, steps), chunks);
    RunIsReceived(statics, differential, n, steps);
    StaysSynced(statics, differential, n, steps);
  }

  /** The sender's side of one step. */
  method SendStep(w: Writer, statics: Pool, ghost n: Net, pools: map<string, Pool>, step: Step) returns (grown: map<string, Pool>)
    requires n.pools == pools && n.offsets == w.stringPoolOffsets && Enabled(statics, n, step)
    modifies w
    ensures w.sent == old(w.sent) + SentIn(statics, w.differentialStringUpdates, n, step)
    ensures w.stringPoolOffsets == Apply(statics, w.differentialStringUpdates, n, step).offsets
    ensures grown == Apply(statics, w.differentialStringUpdates, n, step).pools
  {
    match step
    case Grow(node, texts) =>
      var p: Pool := (if node in pools then pools[node] else statics) + texts;
      grown := pools[node := p];
    case Send(layer) =>
      grown := pools;
      var ok := w.Write(layer, if layer.node in pools then pools[layer.node] else statics);
  }

  /** The sender's side of a run: the writer sends what the run's messages are, and its offsets
      are the run's. */
  method SendRun(w: Writer, statics: Pool, ghost n: Net, pools: map<string, Pool>, steps: seq<Step>)
    requires n.pools == pools && n.offsets == w.stringPoolOffsets && CanRun(statics, w.differentialStringUpdates, n, steps)
    modifies w
    ensures w.sent == old(w.sent) + SentBy(statics, w.differentialStringUpdates, n, steps)
    ensures w.stringPoolOffsets == RunTo(statics, w.differentialStringUpdates, n, steps).offsets
    decreases |steps|
  {
    if steps != [] {
      ghost var n1 := Apply(statics, w.differentialStringUpdates, n, steps[0]);
      ghost var was, first := w.sent, SentIn(statics, w.differentialStringUpdates, n, steps[0]);
      ghost var rest := SentBy(statics, w.differentialStringUpdates, n1, steps[1..]);
      assert was + (first + rest) == (was + first) + rest;
      var grown := SendStep(w, statics, n, pools, steps[0]);
      SendRun(w, statics, n1, grown, steps[1..]);
    }
  }
}
