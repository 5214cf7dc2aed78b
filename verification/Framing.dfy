/** The tile stream's frames: version, type, length, value; and the reader that is fed bytes
    in chunks of any size. What a value means is left to a handler. */
module Framing {
  import opened Bits

  const STRING_POOL: byte := 1
  const TILE_FEATURE_LAYER: byte := 2
  const TILE_SOURCE_DATA_LAYER: byte := 3
  const END_OF_STREAM: byte := 128
  const HEADER_SIZE: nat := 6 + 1 + 4

  datatype Version = Version(major: nat, minor: nat, patch: nat) {
    predicate IsCompatible(other: Version) { other.major == major && other.minor == minor }
  }

  const CURRENT: Version := Version(0, 1, 1)

  // ---- little-endian numbers --------------------------------------------

  function Put(n: nat, width: nat): (s: seq<byte>)
    ensures |s| == width
  {
    if width == 0 then [] else [n % 256] + Put(n / 256, width - 1)
  }

  function Get(s: seq<byte>): nat {
    if s == [] then 0 else s[0] + 256 * Get(s[1..])
  }

  function Range(width: nat): (r: nat)
    ensures r >= 1
  {
    if width == 0 then 1 else 256 * Range(width - 1)
  }

  lemma {:induction false} GetPut(n: nat, width: nat)
    requires n < Range(width)
    ensures Get(Put(n, width)) == n
  {
    if width != 0 { GetPut(n / 256, width - 1); }
  }

  // ---- messages ---------------------------------------------------------

  datatype Message = Message(kind: byte, body: seq<byte>)

  /** What the writer emits; the length is narrowed to 32 bits. */
  function Frame(m: Message): (s: seq<byte>)
    ensures |s| == HEADER_SIZE + |m.body|
  {
    Put(CURRENT.major, 2) + Put(CURRENT.minor, 2) + Put(CURRENT.patch, 2) + [m.kind] + Put(|m.body|, 4) + m.body
  }

  function Frames(ms: seq<Message>): seq<byte> {
    if ms == [] then [] else Frame(ms[0]) + Frames(ms[1..])
  }

  // ---- the reader -------------------------------------------------------

  datatype Phase = ReadHeader | ReadValue

  /** `unread` is the rest of the buffer, `out` whatever the handler has made so far. */
  datatype State<S> = State(phase: Phase, kind: byte, size: nat, unread: seq<byte>, out: S)

  /** Either all that can be read has been, or the protocol version was refused. */
  datatype Outcome<S> = Running(st: State<S>) | Raised(st: State<S>)

  type Handler<!S> = (S, Message) -> S

  /** Values of these kinds are taken from the buffer; any other kind leaves its value there. */
  predicate HasValue(kind: byte) { kind == STRING_POOL || kind == TILE_FEATURE_LAYER || kind == TILE_SOURCE_DATA_LAYER }

  function VersionAt(s: seq<byte>): Version
    requires |s| >= 6
  {
    Version(Get(s[..2]), Get(s[2..4]), Get(s[4..6]))
  }

  /** After a header. */
  function WithHeader<S>(st: State<S>): State<S>
    requires |st.unread| >= HEADER_SIZE
  {
    State(ReadValue, st.unread[6], Get(st.unread[7..11]), st.unread[11..], st.out)
  }

  /** After a value. */
  function WithValue<S>(h: Handler<S>, st: State<S>): State<S>
    requires |st.unread| >= st.size
  {
    if HasValue(st.kind) then
      st.(phase := ReadHeader, unread := st.unread[st.size..], out := h(st.out, Message(st.kind, st.unread[..st.size])))
    else st.(phase := ReadHeader)
  }

  /** Reads on until the bytes do not suffice. */
  function Drain<S>(h: Handler<S>, st: State<S>): Outcome<S>
    decreases 2 * |st.unread| + (if st.phase.ReadValue? then 1 else 0)
  {
    if st.phase.ReadHeader? then
      if |st.unread| < HEADER_SIZE then Running(st)
      else if !VersionAt(st.unread).IsCompatible(CURRENT) then Raised(st.(unread := st.unread[6..]))
      else Drain(h, WithHeader(st))
    else if |st.unread| < st.size then Running(st)
    else Drain(h, WithValue(h, st))
  }

  /** One call of `read`. */
  function Feed<S>(h: Handler<S>, st: State<S>, bytes: seq<byte>): Outcome<S> {
    Drain(h, st.(unread := st.unread + bytes))
  }

  function FeedAll<S>(h: Handler<S>, st: State<S>, chunks: seq<seq<byte>>): Outcome<S>
    decreases |chunks|
  {
    if chunks == [] then Running(st)
    else
      var next := Feed(h, st, chunks[0]);
      if next.Raised? then next else FeedAll(h, next.st, chunks[1..])
  }

  function Flatten(chunks: seq<seq<byte>>): seq<byte> {
    if chunks == [] then [] else chunks[0] + Flatten(chunks[1..])
  }

  // ---- chunk independence -----------------------------------------------

  function More<S>(st: State<S>, b: seq<byte>): State<S> { st.(unread := st.unread + b) }

  /** Bytes that come later do not change what the earlier ones lead to. */
  lemma {:induction false} DrainThenMore<S>(h: Handler<S>, st: State<S>, b: seq<byte>)
    ensures var first := Drain(h, st);
            Drain(h, More(st, b)) == if first.Running? then Drain(h, More(first.st, b)) else Raised(More(first.st, b))
    decreases 2 * |st.unread| + (if st.phase.ReadValue? then 1 else 0)
  {
    var s, t := st.unread, st.unread + b;
    if st.phase.ReadHeader? {
      if |s| >= HEADER_SIZE {
        assert t[..2] == s[..2] && t[2..4] == s[2..4] && t[4..6] == s[4..6] && t[7..11] == s[7..11];
        if VersionAt(s).IsCompatible(CURRENT) {
          assert t[11..] == s[11..] + b;
          DrainThenMore(h, WithHeader(st), b);
        } else {
          assert t[6..] == s[6..] + b;
        }
      }
    } else if |s| >= st.size {
      assert t[..st.size] == s[..st.size] && t[st.size..] == s[st.size..] + b;
      DrainThenMore(h, WithValue(h, st), b);
    }
  }

  /** Feeding in two parts is feeding at once. */
  lemma FeedInParts<S>(h: Handler<S>, st: State<S>, a: seq<byte>, b: seq<byte>)
    ensures var first := Feed(h, st, a);
            Feed(h, st, a + b) == if first.Running? then Feed(h, first.st, b) else Raised(More(first.st, b))
  {
    DrainThenMore(h, More(st, a), b);
    assert (st.unread + a) + b == st.unread + (a + b);
  }

  /** Nothing is left that could be read. */
  predicate Quiet<S(==)>(h: Handler<S>, st: State<S>) { Drain(h, st) == Running(st) }

  lemma {:induction false} DrainIsQuiet<S>(h: Handler<S>, st: State<S>)
    ensures Drain(h, st).Running? ==> Quiet(h, Drain(h, st).st)
    decreases 2 * |st.unread| + (if st.phase.ReadValue? then 1 else 0)
  {
    if st.phase.ReadHeader? {
      if |st.unread| >= HEADER_SIZE && VersionAt(st.unread).IsCompatible(CURRENT) { DrainIsQuiet(h, WithHeader(st)); }
    } else if |st.unread| >= st.size {
      DrainIsQuiet(h, WithValue(h, st));
    }
  }

  /** However a stream is cut into chunks, the same values are handled in the same order and
      the reader ends in the same state, unless it refuses the version. It refuses one way
      exactly if it refuses the other, having handled the same values. */
  lemma {:induction false} ChunkIndependence<S>(h: Handler<S>, st: State<S>, chunks: seq<seq<byte>>)
    requires Quiet(h, st)
    ensures var whole, parts := Feed(h, st, Flatten(chunks)), FeedAll(h, st, chunks);
            && (parts.Running? ==> whole == parts)
            && (parts.Raised? ==> whole.Raised? && whole.st.out == parts.st.out && parts.st.unread <= whole.st.unread)
    decreases |chunks|
  {
    if chunks == [] {
      assert st.(unread := st.unread + []) == st;
    } else {
      var next := Feed(h, st, chunks[0]);
      FeedInParts(h, st, chunks[0], Flatten(chunks[1..]));
      if next.Running? {
        DrainIsQuiet(h, More(st, chunks[0]));
        ChunkIndependence(h, next.st, chunks[1..]);
      }
    }
  }

  // ---- what the writer sent is what is handled --------------------------

  function Handled<S>(h: Handler<S>, out: S, ms: seq<Message>): S {
    if ms == [] then out
    else Handled(h, if HasValue(ms[0].kind) then h(out, ms[0]) else out, ms[1..])
  }

  /** A message the reader can find the end of: shorter than 4 GiB, and without a value
      unless its kind has one. */
  predicate Sendable(m: Message) {
    |m.body| < 0x1_0000_0000 && (!HasValue(m.kind) ==> m.body == [])
  }

  function Idle<S>(out: S, kind: byte, size: nat): State<S> { State(ReadHeader, kind, size, [], out) }

  lemma HeaderBack(m: Message, rest: seq<byte>)
    requires |m.body| < 0x1_0000_0000
    ensures var s := Frame(m) + rest;
            |s| >= HEADER_SIZE && VersionAt(s) == CURRENT && s[6] == m.kind && Get(s[7..11]) == |m.body| && s[11..] == m.body + rest
  {
    var s := Frame(m) + rest;
    assert s[..2] == Put(0, 2) && s[2..4] == Put(1, 2) && s[4..6] == Put(1, 2) && s[7..11] == Put(|m.body|, 4);
    assert Range(4) == 0x1_0000_0000;
    GetPut(0, 2);
    GetPut(1, 2);
    GetPut(|m.body|, 4);
  }

  /** What the reader takes from behind a header is exactly the message's value if and only if
      its kind has a value, or the value is empty; otherwise the value stays in the buffer, in
      front of whatever comes next. */
  lemma ValueTaken<S>(h: Handler<S>, st: State<S>, m: Message, rest: seq<byte>)
    requires st.phase.ReadHeader? && st.unread == Frame(m) + rest && |m.body| < 0x1_0000_0000
    ensures |WithHeader(st).unread| >= WithHeader(st).size
    ensures WithValue(h, WithHeader(st)).unread == rest <==> HasValue(m.kind) || m.body == []
    ensures WithValue(h, WithHeader(st)).unread == if HasValue(m.kind) then rest else m.body + rest
    ensures WithValue(h, WithHeader(st)).out == if HasValue(m.kind) then h(st.out, m) else st.out
  {
    HeaderBack(m, rest);
    var st1 := WithHeader(st);
    assert st1.unread[..|m.body|] == m.body && st1.unread[|m.body|..] == rest;
    if m.body != [] { assert |m.body + rest| != |rest|; } else { assert m.body + rest == rest; }
  }

  /** Any framed message, of whatever kind: the reader goes on behind it, or, for a kind
      without a value, in front of its value. */
  lemma AnyMessageBack<S>(h: Handler<S>, st: State<S>, m: Message, rest: seq<byte>)
    requires st.phase.ReadHeader? && st.unread == Frame(m) + rest && |m.body| < 0x1_0000_0000
    ensures Drain(h, st) == Drain(h, if HasValue(m.kind) then State(ReadHeader, m.kind, |m.body|, rest, h(st.out, m))
                                     else State(ReadHeader, m.kind, |m.body|, m.body + rest, st.out))
  {
    HeaderBack(m, rest);
    ValueTaken(h, st, m, rest);
    var st1 := WithHeader(st);
    assert Drain(h, st) == Drain(h, st1) == Drain(h, WithValue(h, st1));
  }

  lemma MessageBack<S>(h: Handler<S>, st: State<S>, m: Message, rest: seq<byte>)
    requires st.phase.ReadHeader? && st.unread == Frame(m) + rest && Sendable(m)
    ensures Drain(h, st) == Drain(h, State(ReadHeader, m.kind, |m.body|, rest, if HasValue(m.kind) then h(st.out, m) else st.out))
  {
    AnyMessageBack(h, st, m, rest);
    if m.body == [] { assert m.body + rest == rest; }
  }

  /** All messages are handled, in order, and nothing else is. */
  lemma {:induction false} StreamRoundTrip<S>(h: Handler<S>, st: State<S>, ms: seq<Message>)
    requires st.phase.ReadHeader? && st.unread == []
    requires forall i :: 0 <= i < |ms| ==> Sendable(ms[i])
    ensures var r := Feed(h, st, Frames(ms));
            r.Running? && r.st.out == Handled(h, st.out, ms) && r.st.unread == [] && r.st.phase.ReadHeader?
    decreases |ms|
  {
    if ms != [] {
      var m, rest := ms[0], Frames(ms[1..]);
      MessageBack(h, st.(unread := [] + Frames(ms)), m, rest);
      var next := Idle(if HasValue(m.kind) then h(st.out, m) else st.out, m.kind, |m.body|);
      StreamRoundTrip(h, next, ms[1..]);
      assert [] + rest == rest;
    }
  }

  /** A writer's stream, however cut, is handled message by message. */
  lemma ChunkedRoundTrip<S>(h: Handler<S>, st: State<S>, ms: seq<Message>, chunks: seq<seq<byte>>)
    requires st.phase.ReadHeader? && st.unread == [] && Flatten(chunks) == Frames(ms)
    requires forall i :: 0 <= i < |ms| ==> Sendable(ms[i])
    ensures var r := FeedAll(h, st, chunks);
            r.Running? && r.st.out == Handled(h, st.out, ms) && r.st.unread == [] && r.st.phase.ReadHeader?
  {
    ChunkIndependence(h, st, chunks);
    StreamRoundTrip(h, st, ms);
  }

  lemma FeedIdle<S>(h: Handler<S>, out: S, kind: byte, size: nat, s: seq<byte>)
    ensures Feed(h, Idle(out, kind, size), s) == Drain(h, State(ReadHeader, kind, size, s, out))
  {
    assert [] + s == s;
  }

  lemma OneFrame<S>(h: Handler<S>, out: S, kind: byte, size: nat, m: Message)
    requires |m.body| < 0x1_0000_0000 && !HasValue(m.kind)
    ensures Feed(h, Idle(out, kind, size), Frame(m)) == Feed(h, Idle(out, m.kind, |m.body|), m.body)
  {
    assert Frame(m) + [] == Frame(m) && m.body + [] == m.body;
    FeedIdle(h, out, kind, size, Frame(m));
    FeedIdle(h, out, m.kind, |m.body|, m.body);
    AnyMessageBack(h, State(ReadHeader, kind, size, Frame(m), out), m, []);
  }

  /** Behind a kind without a value the reader reads the value itself: if it is made of
      messages, those are handled. */
  lemma ValueReadAsMessages<S>(h: Handler<S>, out: S, m: Message, inner: seq<Message>)
    requires !HasValue(m.kind) && m.body == Frames(inner) && |m.body| < 0x1_0000_0000
    requires forall i :: 0 <= i < |inner| ==> Sendable(inner[i])
    ensures var r := Feed(h, Idle(out, 0, 0), Frame(m)); r.Running? && r.st.out == Handled(h, out, inner) && r.st.unread == []
  {
    OneFrame(h, out, 0, 0, m);
    StreamRoundTrip(h, Idle(out, m.kind, |m.body|), inner);
  }

  /** In particular, wherever in the stream it is: if such a value, with what follows it, begins
      like a header of another version, it is refused as one, and nothing of it is handled. */
  lemma UnknownKindIsNotSkipped<S>(h: Handler<S>, st: State<S>, m: Message, rest: seq<byte>)
    requires st.phase.ReadHeader? && st.unread == Frame(m) + rest && !HasValue(m.kind) && |m.body| < 0x1_0000_0000
    requires |m.body + rest| >= HEADER_SIZE && !VersionAt(m.body + rest).IsCompatible(CURRENT)
    ensures Drain(h, st) == Raised(State(ReadHeader, m.kind, |m.body|, (m.body + rest)[6..], st.out))
  {
    AnyMessageBack(h, st, m, rest);
  }

  // ---- the format, byte by byte -----------------------------------------

  lemma PutTwo(n: nat)
    requires n < 0x1_0000
    ensures Put(n, 2) == [n % 256, n / 256]
  {
    assert Put(n / 256, 1) == [n / 256 % 256] + Put(n / 256 / 256, 0);
  }

  lemma PutFour(n: nat)
    requires n < 0x1_0000_0000
    ensures Put(n, 4) == [n % 256, n / 256 % 256, n / 65536 % 256, n / 16777216]
  {
    PutTwo(n / 65536);
    assert Put(n, 4) == [n % 256] + Put(n / 256, 3) && Put(n / 256, 3) == [n / 256 % 256] + Put(n / 256 / 256, 2);
    assert n / 256 / 256 == n / 65536 && n / 65536 / 256 == n / 16777216;
  }

  /** What is sent for a message: version 0.1.1, the kind, the length, least significant bytes
      first, and the body. */
  lemma FrameBytes(m: Message)
    requires |m.body| < 0x1_0000_0000
    ensures var n := |m.body|; Frame(m) == [0, 0, 1, 0, 1, 0, m.kind, n % 256, n / 256 % 256, n / 65536 % 256, n / 16777216] + m.body
  {
    PutTwo(0);
    PutTwo(1);
    PutFour(|m.body|);
  }

  /** A message of kind 1, 2 or 3, the strings and the two types of tile layers: its bytes make
      the reader call the handler with exactly that message, and leave nothing unread. The bytes
      of any other kind call no handler, and the body is read on. */
  lemma KindDecides<S>(h: Handler<S>, out: S, before: byte, size: nat, kind: byte, body: seq<byte>)
    requires |body| < 0x1_0000_0000
    ensures var n := |body|;
            Feed(h, Idle(out, before, size), [0, 0, 1, 0, 1, 0, kind, n % 256, n / 256 % 256, n / 65536 % 256, n / 16777216] + body) ==
              if kind == 1 || kind == 2 || kind == 3 then Running(State(ReadHeader, kind, |body|, [], h(out, Message(kind, body))))
              else Drain(h, State(ReadHeader, kind, |body|, body, out))
  {
    var m := Message(kind, body);
    FrameBytes(m);
    FeedIdle(h, out, before, size, Frame(m));
    assert Frame(m) + [] == Frame(m) && body + [] == body;
    AnyMessageBack(h, State(ReadHeader, before, size, Frame(m), out), m, []);
  }

  /** The reader refuses what comes next exactly if its first four of at least eleven bytes are
      not those of version 0.1, whatever the patch. */
  lemma VersionDecides<S>(h: Handler<S>, st: State<S>)
    requires st.phase.ReadHeader? && |st.unread| >= 11
    ensures Drain(h, st) == if st.unread[..4] == [0, 0, 1, 0] then Drain(h, WithHeader(st)) else Raised(st.(unread := st.unread[6..]))
  {
    var s := st.unread;
    TwoBytes(s, 0, s[0], s[1]);
    TwoBytes(s, 2, s[2], s[3]);
    assert s[..4] == [s[0], s[1], s[2], s[3]] && s[0..2] == s[..2];
  }

  lemma TwoBytes(s: seq<byte>, at: nat, lo: nat, hi: nat)
    requires at + 2 <= |s| && lo == s[at] && hi == s[at + 1]
    ensures Get(s[at..at + 2]) == lo + 256 * hi
  {
    var t := s[at..at + 2];
    var rest := t[1..];
    assert t[0] == s[at] && rest[0] == s[at + 1] && rest[1..] == [];
    assert Get(rest) == hi;
  }

  class Reader<!S> {
    const handler: Handler<S>
    var currentPhase: Phase
    var nextValueType: byte
    var nextValueSize: nat
    var buffer: seq<byte>
    var out: S

    ghost function Current(): State<S>
      reads this
    {
      State(currentPhase, nextValueType, nextValueSize, buffer, out)
    }

    constructor (handler: Handler<S>, out: S)
      ensures this.handler == handler && Current() == Idle(out, 0, 0) && Quiet(handler, Current())
    {
      this.handler, this.out := handler, out;
      currentPhase, nextValueType, nextValueSize, buffer := ReadHeader, 0, 0, [];
    }

    predicate Eos()
      reads this
    {
      |buffer| == 0
    }

    /** The header, if all of it is there; a version that does not match raises. */
    method ReadMessageHeader() returns (complete: bool, ok: bool)
      modifies this`nextValueType, this`nextValueSize, this`buffer
      ensures complete <==> |old(buffer)| >= HEADER_SIZE
      ensures !complete ==> ok && unchanged(this)
      ensures complete ==> (ok <==> VersionAt(old(buffer)).IsCompatible(CURRENT))
      ensures complete && ok ==> buffer == old(buffer)[11..] && nextValueType == old(buffer)[6] && nextValueSize == Get(old(buffer)[7..11])
      ensures complete && !ok ==> buffer == old(buffer)[6..] && nextValueType == old(nextValueType) && nextValueSize == old(nextValueSize)
    {
      if |buffer| < HEADER_SIZE { return false, true; }
      var version := VersionAt(buffer);
      ghost var was := buffer;
      buffer := buffer[6..];
      if !version.IsCompatible(CURRENT) { return true, false; }
      nextValueType := buffer[0];
      nextValueSize := Get(buffer[1..5]);
      assert buffer[1..5] == was[7..11] && buffer[5..] == was[11..];
      buffer := buffer[5..];
      return true, true;
    }

    /** One message, if all of it is there. */
    method ContinueReading() returns (more: bool, ok: bool)
      modifies this`currentPhase, this`nextValueType, this`nextValueSize, this`buffer, this`out
      ensures ok ==> Drain(handler, old(Current())) == if more then Drain(handler, Current()) else Running(Current())
      ensures !ok ==> Drain(handler, old(Current())) == Raised(Current())
      ensures more ==> ok && (|buffer| < |old(buffer)| || (|buffer| == |old(buffer)| && old(currentPhase).ReadValue? && currentPhase.ReadHeader?))
    {
      if currentPhase == ReadHeader {
        var complete;
        complete, ok := ReadMessageHeader();
        if !complete || !ok { return false, ok; }
        currentPhase := ReadValue;
      }
      if |buffer| < nextValueSize { return false, true; }
      ghost var before := Current();
      if HasValue(nextValueType) {
        out := handler(out, Message(nextValueType, buffer[..nextValueSize]));
        buffer := buffer[nextValueSize..];
      }
      currentPhase := ReadHeader;
      assert Current() == WithValue(handler, before);
      return true, true;
    }

    method Read(bytes: seq<byte>) returns (ok: bool)
      modifies this`currentPhase, this`nextValueType, this`nextValueSize, this`buffer, this`out
      ensures Feed(handler, old(Current()), bytes) == if ok then Running(Current()) else Raised(Current())
    {
      buffer := buffer + bytes;
      var more := true;
      ok := true;
      while more
        invariant ok && Feed(handler, old(Current()), bytes) == if more then Drain(handler, Current()) else Running(Current())
        decreases more, 2 * |buffer| + (if currentPhase.ReadValue? then 1 else 0)
      {
        more, ok := ContinueReading();
        if !ok { return; }
      }
    }
  }
}
