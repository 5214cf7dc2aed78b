/** Writer and reader end to end, and the cached reader against one without a cache. */
module Codec {
  import opened Bits
  import opened Wire
  import opened Fields
  import opened BitWriter
  import opened BitReader

  // ---- any fields, through a real buffer --------------------------------

  method WriteAll(w: BitStreamWriter, fs: seq<Field>) returns (ok: bool)
    requires w.Valid()
    modifies w`bitIndex, w.buffer
    ensures w.Valid()
    ensures ok <==> old(w.HasRoom(|Concat(Codes(fs))|))
    ensures ok ==> w.Wrote(old(w.Bits()), old(w.bitIndex), Concat(Codes(fs)))
  {
    ghost var was, start := w.Bits(), w.bitIndex;
    w.WroteNothing();
    var i := 0;
    while i < |fs|
      invariant 0 <= i <= |fs| && w.Valid()
      invariant w.Wrote(was, start, Concat(Codes(fs[..i])))
    {
      ghost var done, mid, at := Concat(Codes(fs[..i])), w.Bits(), w.bitIndex;
      var next := i + 1;
      NextCode(fs, i, next);
      ok := w.WriteField(fs[i]);
      if !ok { return; }
      w.WroteThen(was, start, done, mid, at, Code(fs[i]));
      i := next;
    }
    assert fs[..|fs|] == fs;
    ok := true;
  }

  lemma NextCode(fs: seq<Field>, i: nat, next: nat)
    requires next == i + 1 <= |fs|
    ensures Concat(Codes(fs[..next])) == Concat(Codes(fs[..i])) + Code(fs[i])
    ensures |Concat(Codes(fs[..i]))| + |Code(fs[i])| <= |Concat(Codes(fs))|
  {
    assert Codes(fs[..next]) == Codes(fs[..i]) + [Code(fs[i])];
    ConcatSnoc(Codes(fs[..i]), Code(fs[i]));
    ConcatPrefix(Codes(fs), next);
    assert Codes(fs)[..next] == Codes(fs[..next]);
  }

  method ReadInTurn(r: BitStreamReader, shapes: seq<Shape>) returns (res: Read<seq<FieldData>>)
    requires r.Valid()
    modifies r
    ensures r.Sound() && (res.Ok? ==> r.Valid() && r.bitIndex == res.pos)
    ensures res == ReadAll(shapes, r.Bits(), old(r.bitIndex))
    decreases |shapes|
  {
    if shapes == [] { return Ok([], r.bitIndex); }
    var f := r.ReadField(shapes[0]);
    if f.Failed? { return Failed; }
    var fs := ReadInTurn(r, shapes[1..]);
    res := if fs.Ok? then Ok([f.value] + fs.value, fs.pos) else Failed;
  }

  /** Fields written from any bit of a buffer with any old contents, and read from there. */
  method Transfer(fs: seq<Field>, buffer: array<byte>, size: nat, start: nat) returns (ok: bool, gs: seq<FieldData>)
    requires (size + 7) / 8 <= buffer.Length
    modifies buffer
    ensures ok <==> start + |Concat(Codes(fs))| <= size
    ensures ok ==> SameAll(fs, gs)
    ensures ok ==> BytesBits(buffer[..]) == Splice(BytesBits(old(buffer[..])), start, Concat(Codes(fs)))
  {
    gs := [];
    var w := new BitStreamWriter(buffer, size);
    ok := w.SetBitPosition(start);
    if !ok { return; }
    ok := WriteAll(w, fs);
    if !ok { return; }
    var r := new BitStreamReader(buffer[..], size);
    ok := r.SetBitPosition(start);
    ReadableAt(BytesBits(old(buffer[..])), r.buffer, size, start, Concat(Codes(fs)));
    MixedRoundTrip(fs, r.Bits(), start);
    var res := ReadInTurn(r, Shapes(fs));
    gs := res.value;
  }

  // ---- any commands, through the cache -----------------------------------

  datatype Command = Take(numBits: nat) | Seek(position: nat)

  /** Where a command leaves the reader. A bad width or position changes nothing. */
  function Step(size: nat, t: Track, cmd: Command): (r: Track)
    requires InBounds(size, t)
    ensures InBounds(size, r)
  {
    match cmd
    case Seek(p) => if p <= size then Sought(size, p) else t
    case Take(n) => if 1 <= n <= 64 then Taken(size, t, n) else t
  }

  function Result(bits: seq<bool>, t: Track, cmd: Command): Read<nat>
    requires InBounds(|bits|, t)
  {
    match cmd
    case Seek(p) => if p <= |bits| then Ok(0, p) else Failed
    case Take(n) => if 1 <= n <= 64 then Got(bits, t, n) else Failed
  }

  function TrackAfter(size: nat, cmds: seq<Command>): (t: Track)
    ensures InBounds(size, t)
  {
    if cmds == [] then Track(0, 0, 0)
    else Step(size, TrackAfter(size, cmds[..|cmds| - 1]), cmds[|cmds| - 1])
  }

  /** A reader that only has a position. */
  function Naive(bits: seq<bool>, pos: nat, cmd: Command): Read<nat> {
    match cmd
    case Seek(p) => if p <= |bits| then Ok(0, p) else Failed
    case Take(n) => if 1 <= n <= 64 then ReadUnsigned(bits, pos, n) else Failed
  }

  method Obey(r: BitStreamReader, cmd: Command) returns (res: Read<nat>)
    requires r.Sound()
    modifies r
    ensures r.Sound() && r.View() == Step(r.bufferBitSize, old(r.View()), cmd)
    ensures res == Result(r.Bits(), old(r.View()), cmd)
  {
    match cmd
    case Take(n) =>
      res := r.ReadUnsignedBits64(n);
    case Seek(p) =>
      var ok := r.SetBitPosition(p);
      res := if ok then Ok(0, p) else Failed;
  }

  /** Over any commands: what the reader returns is what the three numbers say, and its
      position is the third of them. Whenever it is in step, it returns what a reader that
      only has that position would return. */
  method Replay(buffer: seq<byte>, size: nat, cmds: seq<Command>) returns (out: seq<Read<nat>>, positions: seq<nat>)
    requires (size + 7) / 8 <= |buffer|
    ensures |out| == |positions| == |cmds|
    ensures forall i :: 0 <= i < |cmds| ==> out[i] == Result(BytesBits(buffer)[..size], TrackAfter(size, cmds[..i]), cmds[i])
    ensures forall i :: 0 <= i < |cmds| ==> positions[i] == TrackAfter(size, cmds[..i + 1]).index
    ensures forall i :: 0 <= i < |cmds| && InStep(size, TrackAfter(size, cmds[..i])) ==>
              out[i] == Naive(BytesBits(buffer)[..size], TrackAfter(size, cmds[..i]).index, cmds[i])
  {
    var r := new BitStreamReader(buffer, size);
    ghost var bits := r.Bits();
    out, positions := [], [];
    for i := 0 to |cmds|
      invariant fresh(r) && r.Sound() && r.buffer == buffer && r.bufferBitSize == size
      invariant r.View() == TrackAfter(size, cmds[..i]) && Replayed(bits, cmds, i, out, positions)
    {
      ghost var was := r.View();
      var res := Obey(r, cmds[i]);
      ReplayedNext(bits, cmds, i, i + 1, out, positions, was, r.View(), res);
      out, positions := out + [res], positions + [r.bitIndex];
    }
    ReplayedInStep(bits, cmds, out, positions);
  }

  /** Result and position of command `j`, as the three numbers say. */
  predicate Follows(bits: seq<bool>, cmds: seq<Command>, j: nat, res: Read<nat>, position: nat) {
    j < |cmds| && res == Result(bits, TrackAfter(|bits|, cmds[..j]), cmds[j]) && position == TrackAfter(|bits|, cmds[..j + 1]).index
  }

  ghost predicate Replayed(bits: seq<bool>, cmds: seq<Command>, i: nat, out: seq<Read<nat>>, positions: seq<nat>) {
    |out| == |positions| == i <= |cmds| && forall j :: 0 <= j < i ==> Follows(bits, cmds, j, out[j], positions[j])
  }

  lemma ReplayedNext(bits: seq<bool>, cmds: seq<Command>, i: nat, next: nat, out: seq<Read<nat>>, positions: seq<nat>, t: Track, t': Track, res: Read<nat>)
    requires Replayed(bits, cmds, i, out, positions) && next == i + 1 <= |cmds| && t == TrackAfter(|bits|, cmds[..i])
    requires res == Result(bits, t, cmds[i]) && t' == Step(|bits|, t, cmds[i])
    ensures t' == TrackAfter(|bits|, cmds[..next]) && Replayed(bits, cmds, next, out + [res], positions + [t'.index])
  {
    TrackNext(|bits|, cmds, i);
    assert Follows(bits, cmds, i, res, t'.index);
    OneMoreFollows(bits, cmds, i, out, positions, res, t'.index);
  }

  lemma OneMoreFollows(bits: seq<bool>, cmds: seq<Command>, i: nat, out: seq<Read<nat>>, positions: seq<nat>, res: Read<nat>, position: nat)
    requires Replayed(bits, cmds, i, out, positions) && i < |cmds| && Follows(bits, cmds, i, res, position)
    ensures Replayed(bits, cmds, i + 1, out + [res], positions + [position])
  {
    forall j | 0 <= j < i + 1 ensures Follows(bits, cmds, j, (out + [res])[j], (positions + [position])[j]) {
      if j < i { assert Follows(bits, cmds, j, out[j], positions[j]); }
    }
  }

  lemma ReplayedInStep(bits: seq<bool>, cmds: seq<Command>, out: seq<Read<nat>>, positions: seq<nat>)
    requires Replayed(bits, cmds, |cmds|, out, positions)
    ensures forall i :: 0 <= i < |cmds| ==> out[i] == Result(bits, TrackAfter(|bits|, cmds[..i]), cmds[i]) && positions[i] == TrackAfter(|bits|, cmds[..i + 1]).index
    ensures forall i :: 0 <= i < |cmds| && InStep(|bits|, TrackAfter(|bits|, cmds[..i])) ==>
              out[i] == Naive(bits, TrackAfter(|bits|, cmds[..i]).index, cmds[i])
  {
    forall i | 0 <= i < |cmds|
      ensures out[i] == Result(bits, TrackAfter(|bits|, cmds[..i]), cmds[i]) && positions[i] == TrackAfter(|bits|, cmds[..i + 1]).index
    {
      assert Follows(bits, cmds, i, out[i], positions[i]);
    }
    forall i | 0 <= i < |cmds| && InStep(|bits|, TrackAfter(|bits|, cmds[..i]))
      ensures out[i] == Naive(bits, TrackAfter(|bits|, cmds[..i]).index, cmds[i])
    {
      NaiveInStep(bits, TrackAfter(|bits|, cmds[..i]), cmds[i]);
    }
  }

  lemma TrackThen(size: nat, cmds: seq<Command>, cmd: Command)
    ensures TrackAfter(size, cmds + [cmd]) == Step(size, TrackAfter(size, cmds), cmd)
  {
    assert (cmds + [cmd])[..|cmds|] == cmds;
  }

  lemma TrackNext(size: nat, cmds: seq<Command>, i: nat)
    requires i < |cmds|
    ensures TrackAfter(size, cmds[..i + 1]) == Step(size, TrackAfter(size, cmds[..i]), cmds[i])
  {
    assert cmds[..i + 1][..i] == cmds[..i];
  }

  lemma NaiveInStep(bits: seq<bool>, t: Track, cmd: Command)
    requires InBounds(|bits|, t) && InStep(|bits|, t)
    ensures Result(bits, t, cmd) == Naive(bits, t.index, cmd)
  {
    if cmd.Take? && 1 <= cmd.numBits <= 64 {
      InStepAgrees(|bits|, t, cmd.numBits);
      AgreesFor(bits, t, cmd.numBits);
    }
  }

  // ---- when the cache can be noticed ------------------------------------

  function Sum(widths: seq<nat>): nat {
    if widths == [] then 0 else Sum(widths[..|widths| - 1]) + widths[|widths| - 1]
  }

  function Takes(widths: seq<nat>): (s: seq<Command>)
    ensures |s| == |widths|
  {
    seq(|widths|, i requires 0 <= i < |widths| => Take(widths[i]))
  }

  /** What is cached `used` bits into a load, or behind a whole number of loads. */
  function Rest(used: nat, room: nat): nat
    requires used < 64
  {
    if used == 0 then 0 else if 64 - used <= room then 64 - used else room
  }

  /** How many bits are cached at `pos`, `base` being the byte of the last position change. */
  function CachedAt(size: nat, base: nat, pos: nat): nat
    requires base <= pos <= size
  {
    Rest((pos - base) % 64, size - pos)
  }

  /** A read of `n` bits, `used` bits into a load. */
  lemma ReadRest(size: nat, used: nat, used': nat, pos: nat, n: nat, next: nat, have: nat)
    requires used < 64 && pos + n == next <= size && 1 <= n <= 64 && have == Rest(used, size - pos) && (pos + 64 - used) % 8 == 0
    requires used' == if used + n < 64 then used + n else if used + n < 128 then used + n - 64 else 0
    ensures have <= size - pos && Taken(size, Track(pos, have, pos), n) == Track(next, Rest(used', size - next), next)
  {}

  lemma ReadOn(size: nat, base: nat, pos: nat, n: nat, next: nat)
    requires base <= pos && pos + n == next <= size && base % 8 == 0 && 1 <= n <= 64
    ensures CachedAt(size, base, pos) <= size - pos
    ensures Taken(size, Track(pos, CachedAt(size, base, pos), pos), n) == Track(next, CachedAt(size, base, next), next)
  {
    var used, used' := (pos - base) % 64, (next - base) % 64;
    ModStep(pos - base, next - base, used, n);
    Aligned(base, pos, used);
    ReadRest(size, used, used', pos, n, next, CachedAt(size, base, pos));
  }

  lemma Aligned(base: nat, pos: nat, used: nat)
    requires base <= pos && base % 8 == 0 && used == (pos - base) % 64
    ensures (pos + 64 - used) % 8 == 0
  {
    var k := (pos - base) / 64;
    DivModUnique(pos + 64 - used, 8, base / 8 + 8 * k + 8, 0);
  }

  lemma ModStep(d: nat, d': nat, m: nat, n: nat)
    requires m == d % 64 && d' == d + n && n <= 64
    ensures d' % 64 == if m + n < 64 then m + n else if m + n < 128 then m + n - 64 else 0
  {
    DivModUnique(d', 64, if m + n < 64 then d / 64 else d / 64 + 1, if m + n < 64 then m + n else m + n - 64);
  }

  lemma SoughtCaches(size: nat, p: nat)
    requires p <= size
    ensures Sought(size, p) == Track(p, CachedAt(size, ByteOf(p), p), p)
  {}

  /** After a position change to `p` (or at the start, `p` being 0) and any reads that do not
      reach the end, the reader is in step, and how much is cached depends on nothing else. */
  lemma {:induction false} AfterReads(size: nat, before: seq<Command>, p: nat, widths: seq<nat>, pos: nat)
    requires pos == p + Sum(widths) <= size && (forall i :: 0 <= i < |widths| ==> 1 <= widths[i] <= 64)
    ensures TrackAfter(size, before + [Seek(p)] + Takes(widths)) == Track(pos, CachedAt(size, ByteOf(p), pos), pos)
    decreases |widths|
  {
    TakesOneMore(before + [Seek(p)], widths);
    if widths == [] {
      TrackThen(size, before, Seek(p));
      SoughtCaches(size, p);
    } else {
      var front, n := widths[..|widths| - 1], widths[|widths| - 1];
      AfterReads(size, before, p, front, pos - n);
      TrackThen(size, before + [Seek(p)] + Takes(front), Take(n));
      ReadOn(size, ByteOf(p), pos - n, n, pos);
    }
  }

  /** A new reader is where a change to position 0 leads. */
  lemma {:induction false} FromStart(size: nat, cmds: seq<Command>)
    ensures TrackAfter(size, cmds) == TrackAfter(size, [Seek(0)] + cmds)
    decreases |cmds|
  {
    if cmds == [] {
      TrackThen(size, [], Seek(0));
      assert [] + [Seek(0)] == [Seek(0)] + cmds;
    } else {
      var front, cmd := cmds[..|cmds| - 1], cmds[|cmds| - 1];
      FromStart(size, front);
      assert cmds == front + [cmd] && [Seek(0)] + cmds == ([Seek(0)] + front) + [cmd];
      TrackThen(size, front, cmd);
      TrackThen(size, [Seek(0)] + front, cmd);
    }
  }

  lemma TakesOneMore(cmds: seq<Command>, widths: seq<nat>)
    ensures widths == [] ==> cmds + Takes(widths) == cmds
    ensures var n := |widths| - 1; widths != [] ==> cmds + Takes(widths) == (cmds + Takes(widths[..n])) + [Take(widths[n])]
  {}

  /** A read that runs into the end after those moves the position by what is cached. It
      leaves it, and the reader in step, if and only if the position was the end already, or a
      multiple of 64 bits behind the byte of the last position change. */
  lemma AfterFailure(size: nat, before: seq<Command>, p: nat, widths: seq<nat>, n: nat)
    requires p + Sum(widths) <= size && (forall i :: 0 <= i < |widths| ==> 1 <= widths[i] <= 64)
    requires 1 <= n <= 64 && p + Sum(widths) + n > size
    ensures var pos, base, cmds := p + Sum(widths), ByteOf(p), before + [Seek(p)] + Takes(widths);
            var t, t' := TrackAfter(size, cmds), TrackAfter(size, cmds + [Take(n)]);
            && t.index == pos && (forall bits: seq<bool> :: |bits| == size ==> Result(bits, t, Take(n)) == Failed)
            && t' == Track(pos, CachedAt(size, base, pos), pos + CachedAt(size, base, pos))
            && (t'.index == pos <==> pos == size || (pos - base) % 64 == 0)
            && (InStep(size, t') <==> pos == size || (pos - base) % 64 == 0)
  {
    var pos, base, cmds := p + Sum(widths), ByteOf(p), before + [Seek(p)] + Takes(widths);
    AfterReads(size, before, p, widths, pos);
    TrackThen(size, cmds, Take(n));
    FailsThere(size, base, pos, n);
  }

  lemma FailsThere(size: nat, base: nat, pos: nat, n: nat)
    requires base <= pos <= size && base % 8 == 0 && 1 <= n <= 64 && pos + n > size
    ensures var have := CachedAt(size, base, pos);
            && have <= size - pos
            && Taken(size, Track(pos, have, pos), n) == Track(pos, have, pos + have)
            && (forall bits: seq<bool> :: |bits| == size ==> Got(bits, Track(pos, have, pos), n) == Failed)
            && (have == 0 <==> pos == size || (pos - base) % 64 == 0)
            && (have == 0 ==> InStep(size, Track(pos, have, pos)))
  {}

  /** Whether reads agree with a reader at the same position whatever the buffer holds. */
  predicate Agrees(size: nat, t: Track, n: nat) {
    if n <= t.have then t.from == t.index
    else t.index + n > size || ((t.have == 0 || t.from == t.index) && (t.index + t.have) % 8 == 0)
  }

  /** Bits of which one is set. */
  function OneBit(size: nat, k: nat): (s: seq<bool>)
    ensures |s| == size
  {
    seq(size, i => i == k)
  }

  lemma DifferentBits(s: seq<bool>, t: seq<bool>, k: nat)
    requires |s| == |t| && k < |s| && s[k] != t[k]
    ensures FromBits(s) != FromBits(t)
  {
    ToFrom(s);
    ToFrom(t);
  }

  /** In any state, whatever led to it: the next read returns what a reader with only the
      same position would, for every content of the buffer, if and only if the three numbers
      say so. */
  lemma AgreesIff(size: nat, t: Track, n: nat)
    requires InBounds(size, t) && 1 <= n <= 64
    ensures Agrees(size, t, n) <==> forall bits: seq<bool> :: |bits| == size ==> Got(bits, t, n) == ReadUnsigned(bits, t.index, n)
  {
    if Agrees(size, t, n) {
      forall bits: seq<bool> | |bits| == size ensures Got(bits, t, n) == ReadUnsigned(bits, t.index, n) {
        AgreesFor(bits, t, n);
      }
    } else {
      var bits := Differs(size, t, n);
    }
  }

  lemma AgreesFor(bits: seq<bool>, t: Track, n: nat)
    requires InBounds(|bits|, t) && 1 <= n <= 64 && Agrees(|bits|, t, n)
    ensures Got(bits, t, n) == ReadUnsigned(bits, t.index, n)
  {
    if n > t.have && t.index + n <= |bits| {
      var at, rest := t.index + t.have, n - t.have;
      assert bits[t.index..t.index + n] == bits[t.index..at] + bits[at..at + rest];
      assert t.have == 0 || Head(bits, t) == bits[t.index..at];
    }
  }

  lemma Differs(size: nat, t: Track, n: nat) returns (bits: seq<bool>)
    requires InBounds(size, t) && 1 <= n <= 64 && !Agrees(size, t, n)
    ensures |bits| == size && Got(bits, t, n) != ReadUnsigned(bits, t.index, n)
  {
    if t.index + n > size {
      bits := OneBit(size, 0);
    } else if n <= t.have {
      bits := OneBit(size, t.index);
      DifferentBits(bits[t.from..t.from + n], bits[t.index..t.index + n], 0);
    } else {
      bits := DiffersAcross(size, t, n, t.index + t.have, n - t.have, if t.have > 0 && t.from != t.index then 0 else t.have);
    }
  }

  /** The bit that makes a difference is the first one, or the first one loaded. */
  lemma DiffersAcross(size: nat, t: Track, n: nat, at: nat, rest: nat, k: nat) returns (bits: seq<bool>)
    requires InBounds(size, t) && t.have < n <= 64 && t.index + n <= size && at == t.index + t.have && rest == n - t.have
    requires if k < t.have then k == 0 && t.from != t.index else k == t.have && at % 8 != 0
    ensures |bits| == size && Got(bits, t, n) != ReadUnsigned(bits, t.index, n)
  {
    bits := OneBit(size, t.index + k);
    var got, next := Head(bits, t) + Stretch(bits, at, rest), bits[t.index..t.index + n];
    DifferentAt(bits, t, at, rest, k, got);
    SetAt(bits, t.index, n, k, next);
    DifferentBits(got, next, k);
    AcrossAt(bits, t, n, at, rest);
    assert ReadUnsigned(bits, t.index, n).value == FromBits(next) != FromBits(got) == Got(bits, t, n).value;
  }

  lemma SetAt(bits: seq<bool>, pos: nat, n: nat, k: nat, next: seq<bool>)
    requires k < n && pos + n <= |bits| && bits == OneBit(|bits|, pos + k) && next == bits[pos..pos + n]
    ensures |next| == n && next[k] == true
  {}

  /** That bit is not among those that are read. */
  lemma DifferentAt(bits: seq<bool>, t: Track, at: nat, rest: nat, k: nat, got: seq<bool>)
    requires InBounds(|bits|, t) && at == t.index + t.have && 0 < rest && at + rest <= |bits| && bits == OneBit(|bits|, t.index + k)
    requires got == Head(bits, t) + Stretch(bits, at, rest)
    requires if k < t.have then k == 0 && t.from != t.index else k == t.have && at % 8 != 0
    ensures k < |got| == t.have + rest && got[k] == false
  {
    if k < t.have {
      assert got[k] == Head(bits, t)[0] == bits[t.from];
    } else {
      assert got[k] == Stretch(bits, at, rest)[0] == bits[ByteOf(at)];
    }
  }

  /** In step every read agrees. */
  lemma InStepAgrees(size: nat, t: Track, n: nat)
    requires InBounds(size, t) && InStep(size, t)
    ensures Agrees(size, t, n)
  {}

  /** How each command moves a reader into step and out of it: a position change puts it in
      step; a read out of the cache changes nothing; a read that loads puts it in step exactly
      if the load is at a byte; a read that fails leaves it in step exactly if it was and
      nothing was cached. */
  lemma StepsInStep(size: nat, t: Track, cmd: Command)
    requires InBounds(size, t)
    ensures InStep(size, Step(size, t, cmd)) <==>
              match cmd
              case Seek(p) => p <= size || InStep(size, t)
              case Take(n) =>
                if n == 0 || n > 64 || n <= t.have then InStep(size, t)
                else if t.index + n <= size then (t.index + t.have) % 8 == 0
                else InStep(size, t) && t.have == 0
  {
    match cmd
    case Seek(p) => if p <= size { SoughtInStep(size, p); }
    case Take(n) =>
  }

  /** The read after such a failure, `have` bits having been cached at `pos`: up to `have`
      bits it returns the bits at `pos` once more, but says that it is `have` bits further;
      so it agrees with a reader that stayed at `pos` only if both fail. */
  lemma ReadAfterFailure(bits: seq<bool>, pos: nat, have: nat, n: nat)
    requires 0 < have && pos + have <= |bits| && have <= 64 && 1 <= n <= 64
    ensures var t := Track(pos, have, pos + have);
            && (n <= have ==> Got(bits, t, n) == Ok(FromBits(bits[pos..pos + n]), pos + have + n))
            && (n > have ==> (Got(bits, t, n).Failed? <==> pos + have + n > |bits|))
            && (Got(bits, t, n) == ReadUnsigned(bits, pos, n) <==> pos + n > |bits|)
            && (Got(bits, t, n) == ReadUnsigned(bits, pos, n) ==> Got(bits, t, n).Failed?)
  {}

  lemma TwoBytes(bits: seq<bool>)
    requires |bits| == 16 && bits[0..8] == ToBits(8, 0x12) && bits[8..16] == ToBits(8, 0x34)
    ensures Got(bits, Track(0, 0, 0), 8) == Ok(0x12, 8) && Taken(16, Track(0, 0, 0), 8) == Track(8, 8, 8)
    ensures Got(bits, Track(8, 8, 8), 16) == Failed && Taken(16, Track(8, 8, 8), 16) == Track(8, 8, 16)
    ensures Got(bits, Track(8, 8, 16), 8) == Ok(0x34, 24)
  {
    ByteFromBits(0x12);
    ByteFromBits(0x34);
    assert Head(bits, Track(0, 0, 0)) + Stretch(bits, 0, 8) == bits[0..8];
    AcrossAt(bits, Track(0, 0, 0), 8, 0, 8);
    AcrossAt(bits, Track(8, 8, 8), 16, 16, 8);
    WithinAt(bits, Track(8, 8, 16), 8);
  }

  /** Two bytes: after eight bits, a read of sixteen fails, and a read of eight then returns
      the second byte with a position behind the end. */
  method StaleCache() returns (first: Read<nat>, second: Read<nat>, third: Read<nat>)
    ensures first == Ok(0x12, 8) && second == Failed && third == Ok(0x34, 24)
  {
    var r := new BitStreamReader([0x12, 0x34], 16);
    BytesBitsByte([0x12, 0x34], 0);
    BytesBitsByte([0x12, 0x34], 1);
    assert r.Bits() == BytesBits([0x12, 0x34]);
    TwoBytes(r.Bits());
    first := r.ReadUnsignedBits32(8);
    second := r.ReadUnsignedBits32(16);
    third := r.ReadUnsignedBits32(8);
  }
}
