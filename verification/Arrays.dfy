/** Arrays of packable elements: an optional length, elements optionally aligned to bytes,
    plain or delta-packed. Sizes, offsets, writing and reading all follow one layout. */
module Arrays {
  import opened Bits
  import opened Wire
  import VarNum
  import Fields
  import opened BitWriter
  import opened BitReader
  import opened Layouts
  import opened Delta

  datatype ArrayType = Normal | Aligned | Auto | AlignedAuto {
    predicate HasLength() { Auto? || AlignedAuto? }

    predicate IsAligned() { Aligned? || AlignedAuto? }

    /** A length that is written must be a varsize. */
    predicate Countable(n: nat) { HasLength() ==> n <= VarNum.VARSIZE_MAX }
  }

  // ---- the bits of an array ----------------------------------------------

  function LengthPart(a: ArrayType, n: nat): seq<bool>
    requires a.Countable(n)
  {
    if a.HasLength() then Fields.LengthCode(n) else []
  }

  /** The length part, if any, and the elements behind it. */
  function ArrayCode(length: seq<bool>, aligned: bool, codes: seq<seq<bool>>, pos: nat): seq<bool> {
    length + Layout(aligned, codes, pos + |length|)
  }

  /** The bits of an array, packed or plain. */
  function Codes(t: ElemType, packed: bool, xs: seq<int>): (s: seq<seq<bool>>)
    requires AllIn(t, xs)
    ensures |s| == |xs|
  {
    if packed then PackedCodes(t, xs) else PlainCodes(t, xs)
  }

  function ArrayBits(t: ElemType, a: ArrayType, packed: bool, xs: seq<int>, pos: nat): seq<bool>
    requires AllIn(t, xs) && a.Countable(|xs|)
  {
    ArrayCode(LengthPart(a, |xs|), a.IsAligned(), Codes(t, packed, xs), pos)
  }

  /** Automatic arrays start with their length as a varsize, others with their elements. */
  lemma LengthForm(a: ArrayType, n: nat)
    requires a.Countable(n)
    ensures match a
            case Normal => LengthPart(a, n) == []
            case Aligned => LengthPart(a, n) == []
            case Auto => n <= 0x7fff_ffff && (VarNum.VarSizeInRange(n); LengthPart(a, n) == VarNum.Encode(VarNum.VarSize, n))
            case AlignedAuto => n <= 0x7fff_ffff && (VarNum.VarSizeInRange(n); LengthPart(a, n) == VarNum.Encode(VarNum.VarSize, n))
  {}

  /** One element more: right behind those before it, or behind fewer than eight zero bits that
      take it to a byte. */
  lemma ElementForm(a: ArrayType, codes: seq<seq<bool>>, pos: nat, n: nat, next: nat) returns (gap: nat)
    requires next == n + 1 <= |codes|
    ensures Layout(a.IsAligned(), codes[..0], pos) == []
    ensures var front, more := Layout(a.IsAligned(), codes[..n], pos), Layout(a.IsAligned(), codes[..next], pos);
            match a
            case Normal => more == front + codes[n]
            case Auto => more == front + codes[n]
            case Aligned => gap < 8 && (pos + |front| + gap) % 8 == 0 && more == front + seq(gap, i => false) + codes[n]
            case AlignedAuto => gap < 8 && (pos + |front| + gap) % 8 == 0 && more == front + seq(gap, i => false) + codes[n]
  {
    LayoutNext(a.IsAligned(), codes, pos, n, next);
    gap := Gap(a.IsAligned(), pos + |Layout(a.IsAligned(), codes[..n], pos)|);
    ZeroBits(gap);
  }

  lemma {:induction false} ZeroBits(n: nat)
    ensures ToBits(n, 0) == seq(n, i => false)
  {
    if n > 0 { ZeroBits(n - 1); }
  }

  // ---- reading ----------------------------------------------------------

  function ElemReader(t: ElemType): Reader<DeltaState, int> {
    (st: DeltaState, bits: seq<bool>, pos: nat) => ReadDelta(t, st, bits, pos)
  }

  function ReadLength(a: ArrayType, given: nat, bits: seq<bool>, pos: nat): (r: Read<nat>) {
    if a.HasLength() then
      var (n, p) :- VarNum.Decode(VarNum.VarSize, bits, pos);
      Ok(n, p)
    else Ok(given, pos)
  }

  /** What an array read returns: `st` is the plain state, or the fresh one of a packed array. */
  function ReadArray(t: ElemType, a: ArrayType, st: DeltaState, given: nat, bits: seq<bool>, pos: nat): Read<seq<int>> {
    var (n, p) :- ReadLength(a, given, bits, pos);
    var (xs, q) :- ReadElems(ElemReader(t), a.IsAligned(), st, n, bits, p);
    Ok(xs.0, q)
  }

  lemma LengthBack(a: ArrayType, n: nat, bits: seq<bool>, pos: nat)
    requires a.Countable(n)
    ensures At(bits, pos, LengthPart(a, n)) ==> ReadLength(a, n, bits, pos) == Ok(n, pos + |LengthPart(a, n)|)
  {
    if a.HasLength() && At(bits, pos, LengthPart(a, n)) {
      VarNum.VarSizeInRange(n);
      VarNum.RoundTrip(VarNum.VarSize, n, bits, pos);
    }
  }

  lemma ReadInParts(t: ElemType, a: ArrayType, st: DeltaState, given: nat, bits: seq<bool>, pos: nat,
                    n: nat, p: nat, xs: seq<int>, after: DeltaState, q: nat)
    requires ReadLength(a, given, bits, pos) == Ok(n, p)
    requires ReadElems(ElemReader(t), a.IsAligned(), st, n, bits, p) == Ok((xs, after), q)
    ensures ReadArray(t, a, st, given, bits, pos) == Ok(xs, q)
  {}

  lemma ElemsBack(t: ElemType, aligned: bool, codes: seq<seq<bool>>, xs: seq<int>, states: seq<DeltaState>, bits: seq<bool>, pos: nat)
    requires AllTake(ElemReader(t), codes, xs, states, bits) && At(bits, pos, Layout(aligned, codes, pos))
    ensures ReadElems(ElemReader(t), aligned, states[0], |xs|, bits, pos) == Ok((xs, states[|xs|]), pos + |Layout(aligned, codes, pos)|)
  {
    assert codes[..|xs|] == codes && xs[..|xs|] == xs;
    var end := LayoutBack(ElemReader(t), aligned, codes, xs, states, bits, pos, |xs|);
  }

  /** An array whose elements are taken back one by one is read back whole. */
  lemma ArrayBack(t: ElemType, a: ArrayType, length: seq<bool>, codes: seq<seq<bool>>, xs: seq<int>, states: seq<DeltaState>,
                  bits: seq<bool>, pos: nat) returns (end: nat)
    requires AllTake(ElemReader(t), codes, xs, states, bits) && At(bits, pos, ArrayCode(length, a.IsAligned(), codes, pos))
    requires At(bits, pos, length) ==> ReadLength(a, |xs|, bits, pos) == Ok(|xs|, pos + |length|)
    ensures ReadArray(t, a, states[0], |xs|, bits, pos) == Ok(xs, end)
    ensures end == pos + |ArrayCode(length, a.IsAligned(), codes, pos)|
  {
    var p := pos + |length|;
    var layout := Layout(a.IsAligned(), codes, p);
    AtSplit(bits, pos, length, layout);
    ElemsBack(t, a.IsAligned(), codes, xs, states, bits, p);
    end := p + |layout|;
    ReadInParts(t, a, states[0], |xs|, bits, pos, |xs|, p, xs, states[|xs|], end);
  }

  lemma CodesBack(t: ElemType, a: ArrayType, packed: bool, xs: seq<int>, states: seq<DeltaState>, bits: seq<bool>, pos: nat) returns (end: nat)
    requires AllIn(t, xs) && a.Countable(|xs|) && AllTake(ElemReader(t), Codes(t, packed, xs), xs, states, bits)
    requires At(bits, pos, ArrayBits(t, a, packed, xs, pos))
    ensures ReadArray(t, a, states[0], |xs|, bits, pos) == Ok(xs, end) && end == pos + |ArrayBits(t, a, packed, xs, pos)|
  {
    var n, codes := |xs|, Codes(t, packed, xs);
    var length := LengthPart(a, n);
    assert ArrayBits(t, a, packed, xs, pos) == ArrayCode(length, a.IsAligned(), codes, pos);
    LengthBack(a, n, bits, pos);
    end := ArrayBack(t, a, length, codes, xs, states, bits, pos);
  }

  lemma TakesPlain(t: ElemType, x: int, bits: seq<bool>)
    requires InElem(t, x)
    ensures Takes(ElemReader(t), ElemCode(t, x), Plain, x, Plain, bits)
  {
    var code := ElemCode(t, x);
    forall p: nat | At(bits, p, code) ensures ReadDelta(t, Plain, bits, p) == Ok((x, Plain), p + |code|) {
      ElemBack(t, x, bits, p);
    }
  }

  lemma PlainTake(t: ElemType, xs: seq<int>, bits: seq<bool>)
    requires AllIn(t, xs)
    ensures AllTake(ElemReader(t), PlainCodes(t, xs), xs, seq(|xs| + 1, i => Plain), bits)
  {
    var codes, states := PlainCodes(t, xs), seq(|xs| + 1, i => Plain);
    forall i | 0 <= i < |xs| ensures TakesAt(ElemReader(t), codes, xs, states, bits, i) {
      TakesPlain(t, xs[i], bits);
    }
  }

  /** Plain arrays come back equal. */
  lemma PlainRoundTrip(t: ElemType, a: ArrayType, xs: seq<int>, bits: seq<bool>, pos: nat) returns (end: nat)
    requires AllIn(t, xs) && a.Countable(|xs|) && At(bits, pos, ArrayBits(t, a, false, xs, pos))
    ensures ReadArray(t, a, Plain, |xs|, bits, pos) == Ok(xs, end) && end == pos + |ArrayBits(t, a, false, xs, pos)|
  {
    PlainTake(t, xs, bits);
    end := CodesBack(t, a, false, xs, seq(|xs| + 1, i => Plain), bits, pos);
  }

  lemma TakesPacked(t: ElemType, xs: seq<int>, i: nat, next: nat, bits: seq<bool>)
    requires AllIn(t, xs) && i < |xs| && next == i + 1
    ensures Takes(ElemReader(t), PackedCode(t, xs, i), StateAt(t, xs, i), xs[i], StateAt(t, xs, next), bits)
  {
    var code, before, after := PackedCode(t, xs, i), StateAt(t, xs, i), StateAt(t, xs, next);
    forall p: nat | At(bits, p, code) ensures ReadDelta(t, before, bits, p) == Ok((xs[i], after), p + |code|) {
      ElementBack(t, xs, i, next, bits, p);
    }
  }

  function States(t: ElemType, xs: seq<int>): (s: seq<DeltaState>)
    requires AllIn(t, xs)
    ensures |s| == |xs| + 1 && s[0] == Fresh
  {
    seq(|xs| + 1, i requires 0 <= i <= |xs| => StateAt(t, xs, i))
  }

  lemma StateIs(t: ElemType, xs: seq<int>, i: nat, states: seq<DeltaState>)
    requires AllIn(t, xs) && i <= |xs| && states == States(t, xs)
    ensures states[i] == StateAt(t, xs, i)
  {}

  lemma PackedTakeAt(t: ElemType, xs: seq<int>, i: nat, next: nat, bits: seq<bool>, codes: seq<seq<bool>>, states: seq<DeltaState>)
    requires AllIn(t, xs) && i < |xs| && next == i + 1 && codes == PackedCodes(t, xs) && states == States(t, xs)
    ensures TakesAt(ElemReader(t), codes, xs, states, bits, i)
  {
    TakesPacked(t, xs, i, next, bits);
    StateIs(t, xs, i, states);
    StateIs(t, xs, next, states);
    ThenTakesAt(ElemReader(t), codes, xs, states, bits, i, next);
  }

  lemma PackedTake(t: ElemType, xs: seq<int>, bits: seq<bool>)
    requires AllIn(t, xs)
    ensures AllTake(ElemReader(t), PackedCodes(t, xs), xs, States(t, xs), bits)
  {
    var codes, states := PackedCodes(t, xs), States(t, xs);
    forall i | 0 <= i < |xs| ensures TakesAt(ElemReader(t), codes, xs, states, bits, i) {
      PackedTakeAt(t, xs, i, i + 1, bits, codes, states);
    }
  }

  /** Packed arrays come back equal, whatever was decided and wherever they start. */
  lemma PackedRoundTrip(t: ElemType, a: ArrayType, xs: seq<int>, bits: seq<bool>, pos: nat) returns (end: nat)
    requires AllIn(t, xs) && a.Countable(|xs|) && At(bits, pos, ArrayBits(t, a, true, xs, pos))
    ensures ReadArray(t, a, Fresh, |xs|, bits, pos) == Ok(xs, end) && end == pos + |ArrayBits(t, a, true, xs, pos)|
  {
    PackedTake(t, xs, bits);
    end := CodesBack(t, a, true, xs, States(t, xs), bits, pos);
  }

  // ---- sizes and offsets ------------------------------------------------

  /** Aligning commutes with wrapping at 32 bits. */
  lemma AlignWraps(end: nat, e: nat)
    requires end == e % U32
    ensures PadLength(8, end) == PadLength(8, e) && (e + PadLength(8, e)) % U32 % 8 == 0
  {
    var q, p := e / U32, e + PadLength(8, e);
    DivModUnique(e, 8, q * 0x2000_0000 + end / 8, end % 8);
    DivModUnique(p % U32, 8, p / 8 - p / U32 * 0x2000_0000, 0);
  }

  /** One element further: `end` and both results are 32 bits of the true positions. */
  method Advance(aligned: bool, end: nat, more: nat, ghost e: nat, ghost s: nat, ghost n: nat) returns (start: nat, next: nat)
    requires end == e % U32 && s == e + Gap(aligned, e) && n == s + more
    ensures start == s % U32 && next == n % U32 && (aligned ==> start % 8 == 0)
  {
    AlignToIsPad(8, end);
    AlignWraps(end, e);
    start := if aligned then AlignTo(8, end) % U32 else end;
    if aligned { WrapOn(end, start, e, PadLength(8, e), s, U32); }
    next := (start + more) % U32;
    WrapOn(start, next, s, more, n, U32);
  }

  /** Where the first `i` elements end. */
  function EndAt(aligned: bool, codes: seq<seq<bool>>, base: nat, i: nat): nat
    requires i <= |codes|
  {
    base + |Layout(aligned, codes[..i], base)|
  }

  lemma Steps(aligned: bool, codes: seq<seq<bool>>, base: nat, i: nat) returns (end: nat, start: nat, next: nat)
    requires i < |codes|
    ensures end == EndAt(aligned, codes, base, i) && start == ElemPos(aligned, codes, base, i) && next == EndAt(aligned, codes, base, i + 1)
    ensures start == end + Gap(aligned, end) && next == start + |codes[i]|
  {
    LayoutNext(aligned, codes, base, i, i + 1);
    end, start, next := EndAt(aligned, codes, base, i), ElemPos(aligned, codes, base, i), EndAt(aligned, codes, base, i + 1);
  }

  /** 32 bits of where the first `i` elements end. */
  ghost predicate EndsAt(end: nat, aligned: bool, codes: seq<seq<bool>>, base: nat, i: nat) {
    i <= |codes| && end == EndAt(aligned, codes, base, i) % U32
  }

  lemma EndOfNone(aligned: bool, codes: seq<seq<bool>>, base: nat)
    ensures EndsAt(base % U32, aligned, codes, base, 0)
  {}

  lemma EndOfAll(aligned: bool, codes: seq<seq<bool>>, base: nat, n: nat, last: nat, end: nat)
    requires EndsAt(end, aligned, codes, base, n) && n == |codes| && last == base + |Layout(aligned, codes, base)|
    ensures end == last % U32
  {
    assert codes[..n] == codes;
  }

  method AddElement(aligned: bool, end: nat, more: nat, ghost codes: seq<seq<bool>>, ghost base: nat, ghost i: nat, ghost after: nat) returns (start: nat, next: nat)
    requires i < |codes| && after == i + 1 && more == |codes[i]| && EndsAt(end, aligned, codes, base, i)
    ensures start == ElemPos(aligned, codes, base, i) % U32 && (aligned ==> start % 8 == 0)
    ensures EndsAt(next, aligned, codes, base, after)
  {
    ghost var e, s, n := Steps(aligned, codes, base, i);
    start, next := Advance(aligned, end, more, e, s, n);
  }

  /** The size of the length part; more elements than a varsize counts are an error. */
  method LengthSize(a: ArrayType, n: nat) returns (ok: bool, size: nat)
    ensures ok <==> a.Countable(n)
    ensures ok ==> size == |LengthPart(a, n)|
  {
    if a.HasLength() {
      VarNum.VarSizeInRange(n);
      ok, size := VarNum.BitSizeOf(VarNum.VarSize, n);
    } else {
      ok, size := true, 0;
    }
  }

  method SizeElems(t: ElemType, aligned: bool, xs: seq<int>, from: nat, ghost base: nat, ghost codes: seq<seq<bool>>, ghost last: nat) returns (end: nat)
    requires AllIn(t, xs) && codes == PlainCodes(t, xs) && from == base % U32
    requires last == base + |Layout(aligned, codes, base)|
    ensures end == last % U32
  {
    end := from;
    EndOfNone(aligned, codes, base);
    for i := 0 to |xs|
      invariant EndsAt(end, aligned, codes, base, i)
    {
      var more := BitSizeOfElem(t, xs[i]);
      var start;
      start, end := AddElement(aligned, end, more, codes, base, i, i + 1);
    }
    EndOfAll(aligned, codes, base, |xs|, last, end);
  }

  lemma PrefixNext(xs: seq<int>, i: nat, next: nat)
    requires next == i + 1 <= |xs|
    ensures xs[..next] == xs[..i] + [xs[i]]
  {}

  method Announce(context: DeltaContext, t: ElemType, xs: seq<int>, i: nat, ghost next: nat)
    requires AllIn(t, xs) && next == i + 1 <= |xs| && context.Counted(t, xs[..i])
    modifies context
    ensures context.Counted(t, xs[..next])
  {
    PrefixNext(xs, i, next);
    context.Init(t, xs[i], xs[..i], xs[..next]);
  }

  /** All elements announced to a new context. */
  method NewContext(t: ElemType, xs: seq<int>) returns (context: DeltaContext)
    requires AllIn(t, xs)
    ensures fresh(context) && context.Counted(t, xs)
  {
    context := new DeltaContext();
    for i := 0 to |xs|
      invariant fresh(context) && context.Counted(t, xs[..i])
    {
      Announce(context, t, xs, i, i + 1);
    }
    assert xs[..|xs|] == xs;
  }

  method AddElementPacked(context: DeltaContext, t: ElemType, aligned: bool, xs: seq<int>, i: nat, ghost after: nat, end: nat,
                          ghost base: nat, ghost codes: seq<seq<bool>>) returns (start: nat, next: nat)
    requires AllIn(t, xs) && codes == PackedCodes(t, xs) && after == i + 1 <= |xs| && context.Ready(t, xs, i) && EndsAt(end, aligned, codes, base, i)
    modifies context
    ensures context.Ready(t, xs, after) && EndsAt(next, aligned, codes, base, after)
    ensures start == ElemPos(aligned, codes, base, i) % U32 && (aligned ==> start % 8 == 0)
  {
    var more := context.BitSizeOf(t, xs[i], xs, i);
    start, next := AddElement(aligned, end, more, codes, base, i, after);
  }

  method SizeElemsPacked(t: ElemType, aligned: bool, xs: seq<int>, from: nat, ghost base: nat, ghost codes: seq<seq<bool>>, ghost last: nat) returns (end: nat)
    requires AllIn(t, xs) && codes == PackedCodes(t, xs) && from == base % U32
    requires last == base + |Layout(aligned, codes, base)|
    ensures end == last % U32
  {
    end := from;
    EndOfNone(aligned, codes, base);
    if |xs| > 0 {
      var context := NewContext(t, xs);
      for i := 0 to |xs|
        invariant fresh(context) && context.Ready(t, xs, i)
        invariant EndsAt(end, aligned, codes, base, i)
      {
        var start;
        start, end := AddElementPacked(context, t, aligned, xs, i, i + 1, end, base, codes);
      }
    }
    EndOfAll(aligned, codes, base, |xs|, last, end);
  }

  /** The byte each of the first `n` elements starts at, in 32 bits of the position; set for
      aligned arrays only. */
  ghost predicate AreOffsets(offsets: seq<nat>, aligned: bool, codes: seq<seq<bool>>, base: nat, n: nat) {
    if aligned then
      |offsets| == n <= |codes| && forall j :: 0 <= j < n ==> 8 * offsets[j] == ElemPos(aligned, codes, base, j) % U32
    else offsets == []
  }

  method AddOffset(offsets: seq<nat>, aligned: bool, start: nat, ghost codes: seq<seq<bool>>, ghost base: nat, ghost i: nat, ghost after: nat) returns (more: seq<nat>)
    requires i < |codes| && after == i + 1 && start == ElemPos(aligned, codes, base, i) % U32 && (aligned ==> start % 8 == 0)
    requires AreOffsets(offsets, aligned, codes, base, i)
    ensures AreOffsets(more, aligned, codes, base, after)
  {
    more := if aligned then offsets + [start / 8] else offsets;
  }

  method OffsetElems(t: ElemType, aligned: bool, xs: seq<int>, from: nat, ghost base: nat, ghost codes: seq<seq<bool>>, ghost last: nat) returns (end: nat, offsets: seq<nat>)
    requires AllIn(t, xs) && codes == PlainCodes(t, xs) && from == base % U32
    requires last == base + |Layout(aligned, codes, base)|
    ensures end == last % U32
    ensures AreOffsets(offsets, aligned, codes, base, |codes|)
  {
    end, offsets := from, [];
    EndOfNone(aligned, codes, base);
    for i := 0 to |xs|
      invariant EndsAt(end, aligned, codes, base, i)
      invariant AreOffsets(offsets, aligned, codes, base, i)
    {
      var more := BitSizeOfElem(t, xs[i]);
      var start;
      start, end := AddElement(aligned, end, more, codes, base, i, i + 1);
      offsets := AddOffset(offsets, aligned, start, codes, base, i, i + 1);
    }
    EndOfAll(aligned, codes, base, |xs|, last, end);
  }

  method OffsetElemsPacked(t: ElemType, aligned: bool, xs: seq<int>, from: nat, ghost base: nat, ghost codes: seq<seq<bool>>, ghost last: nat) returns (end: nat, offsets: seq<nat>)
    requires AllIn(t, xs) && codes == PackedCodes(t, xs) && from == base % U32
    requires last == base + |Layout(aligned, codes, base)|
    ensures end == last % U32
    ensures AreOffsets(offsets, aligned, codes, base, |codes|)
  {
    end, offsets := from, [];
    EndOfNone(aligned, codes, base);
    if |xs| > 0 {
      var context := NewContext(t, xs);
      for i := 0 to |xs|
        invariant fresh(context) && context.Ready(t, xs, i)
        invariant EndsAt(end, aligned, codes, base, i)
        invariant AreOffsets(offsets, aligned, codes, base, i)
      {
        ghost var next := i + 1;
        var start;
        start, end := AddElementPacked(context, t, aligned, xs, i, next, end, base, codes);
        offsets := AddOffset(offsets, aligned, start, codes, base, i, next);
      }
    }
    EndOfAll(aligned, codes, base, |xs|, last, end);
  }

  method SizeBody(t: ElemType, aligned: bool, packed: bool, xs: seq<int>, from: nat, ghost base: nat, ghost codes: seq<seq<bool>>, ghost last: nat) returns (end: nat)
    requires AllIn(t, xs) && codes == Codes(t, packed, xs) && from == base % U32
    requires last == base + |Layout(aligned, codes, base)|
    ensures end == last % U32
  {
    if packed {
      end := SizeElemsPacked(t, aligned, xs, from, base, codes, last);
    } else {
      end := SizeElems(t, aligned, xs, from, base, codes, last);
    }
  }

  method OffsetBody(t: ElemType, aligned: bool, packed: bool, xs: seq<int>, from: nat, ghost base: nat, ghost codes: seq<seq<bool>>, ghost last: nat)
    returns (end: nat, offsets: seq<nat>)
    requires AllIn(t, xs) && codes == Codes(t, packed, xs) && from == base % U32
    requires last == base + |Layout(aligned, codes, base)|
    ensures end == last % U32
    ensures AreOffsets(offsets, aligned, codes, base, |codes|)
  {
    if packed {
      end, offsets := OffsetElemsPacked(t, aligned, xs, from, base, codes, last);
    } else {
      end, offsets := OffsetElems(t, aligned, xs, from, base, codes, last);
    }
  }

  lemma ArraySize(length: seq<bool>, aligned: bool, codes: seq<seq<bool>>, pos: nat, base: nat) returns (end: nat, size: nat)
    requires base == pos + |length|
    ensures end == base + |Layout(aligned, codes, base)| == pos + size && size == |ArrayCode(length, aligned, codes, pos)|
  {
    end, size := base + |Layout(aligned, codes, base)|, |ArrayCode(length, aligned, codes, pos)|;
  }

  /** The difference of two 32-bit positions is 32 bits of the distance. */
  method Distance(end: nat, bitPosition: nat, ghost e: nat, ghost size: nat) returns (d: nat)
    requires bitPosition < U32 && e == bitPosition + size && end == e % U32
    ensures d == size % U32
  {
    d := (end + U32 - bitPosition) % U32;
    ghost var k := e / U32;
    DivModUnique(size, U32, if end >= bitPosition then k else k - 1, if end >= bitPosition then end - bitPosition else end + U32 - bitPosition);
    DivModUnique(end + U32 - bitPosition, U32, if end >= bitPosition then 1 else 0, if end >= bitPosition then end - bitPosition else end + U32 - bitPosition);
  }

  /** The same behind a length part of a known size. */
  method SizeBehind(t: ElemType, aligned: bool, packed: bool, xs: seq<int>, bitPosition: nat, lengthSize: nat,
                    ghost length: seq<bool>, ghost codes: seq<seq<bool>>) returns (size: nat)
    requires AllIn(t, xs) && lengthSize == |length| && codes == Codes(t, packed, xs) && bitPosition < U32
    ensures size == |ArrayCode(length, aligned, codes, bitPosition)| % U32
  {
    var base := bitPosition + lengthSize;
    ghost var e, whole := ArraySize(length, aligned, codes, bitPosition, base);
    var from := base % U32;
    var end := SizeBody(t, aligned, packed, xs, from, base, codes, e);
    size := Distance(end, bitPosition, e, whole);
  }

  /** The size and the offsets of the elements, before anything is written: 32 bits of them. */
  ghost predicate Planned(size: nat, offsets: seq<nat>, length: seq<bool>, aligned: bool, codes: seq<seq<bool>>, pos: nat) {
    size == |ArrayCode(length, aligned, codes, pos)| % U32 && AreOffsets(offsets, aligned, codes, pos + |length|, |codes|)
  }

  lemma PlannedFrom(base: nat, offsets: seq<nat>, length: seq<bool>, aligned: bool, codes: seq<seq<bool>>, pos: nat)
    requires base == pos + |length| && AreOffsets(offsets, aligned, codes, base, |codes|)
    ensures Planned(|ArrayCode(length, aligned, codes, pos)| % U32, offsets, length, aligned, codes, pos)
  {}

  method OffsetsBehind(t: ElemType, aligned: bool, packed: bool, xs: seq<int>, bitPosition: nat, lengthSize: nat,
                       ghost length: seq<bool>, ghost codes: seq<seq<bool>>) returns (size: nat, offsets: seq<nat>)
    requires AllIn(t, xs) && lengthSize == |length| && codes == Codes(t, packed, xs) && bitPosition < U32
    ensures Planned(size, offsets, length, aligned, codes, bitPosition)
  {
    var base := bitPosition + lengthSize;
    ghost var e, whole := ArraySize(length, aligned, codes, bitPosition, base);
    var from := base % U32;
    var end;
    end, offsets := OffsetBody(t, aligned, packed, xs, from, base, codes, e);
    PlannedFrom(base, offsets, length, aligned, codes, bitPosition);
    size := Distance(end, bitPosition, e, whole);
  }

  /** The size the array will have from `bitPosition` on, in 32 bits, as the position is. */
  method BitSizeOf(t: ElemType, a: ArrayType, packed: bool, xs: seq<int>, bitPosition: nat) returns (ok: bool, size: nat)
    requires AllIn(t, xs) && bitPosition < U32
    ensures ok <==> a.Countable(|xs|)
    ensures ok ==> size == |ArrayBits(t, a, packed, xs, bitPosition)| % U32
  {
    ok, size := LengthSize(a, |xs|);
    if ok { size := SizeBehind(t, a.IsAligned(), packed, xs, bitPosition, size, LengthPart(a, |xs|), Codes(t, packed, xs)); }
  }

  /** The same size, and the byte each element of an aligned array will start at. */
  method InitializeOffsets(t: ElemType, a: ArrayType, packed: bool, xs: seq<int>, bitPosition: nat) returns (ok: bool, size: nat, offsets: seq<nat>)
    requires AllIn(t, xs) && bitPosition < U32
    ensures ok <==> a.Countable(|xs|)
    ensures ok ==> Planned(size, offsets, LengthPart(a, |xs|), a.IsAligned(), Codes(t, packed, xs), bitPosition)
  {
    offsets := [];
    ok, size := LengthSize(a, |xs|);
    if ok { size, offsets := OffsetsBehind(t, a.IsAligned(), packed, xs, bitPosition, size, LengthPart(a, |xs|), Codes(t, packed, xs)); }
  }

  /** Whatever the length part and the codes of the elements: an offset is the byte at which
      the array's bits hold that very element, if and only if the element starts below 2^32. */
  lemma OffsetIsWhereWritten(length: seq<bool>, codes: seq<seq<bool>>, pos: nat, bits: seq<bool>, size: nat, offsets: seq<nat>, i: nat) returns (at: nat)
    requires i < |codes| && Planned(size, offsets, length, true, codes, pos)
    requires At(bits, pos, ArrayCode(length, true, codes, pos))
    ensures At(bits, at, codes[i]) && at == ElemPos(true, codes, pos + |length|, i)
    ensures 8 * offsets[i] == at <==> at < U32
  {
    at := ElemPos(true, codes, pos + |length|, i);
    AtSplit(bits, pos, length, Layout(true, codes, pos + |length|));
    assert codes[..|codes|] == codes;
    ElementsAt(true, codes, pos + |length|, bits, |codes|, i);
    NoWrapIff(at, U32);
  }

  // ---- writing ----------------------------------------------------------

  /** How far the first `i` elements and then one more reach. */
  lemma Reach(aligned: bool, codes: seq<seq<bool>>, start: nat, i: nat, next: nat)
    requires next == i + 1 <= |codes|
    ensures start + |Before(aligned, codes, start, i)| + |codes[i]| <= start + |Layout(aligned, codes, start)|
    ensures Before(aligned, codes, start, i) + codes[i] == Layout(aligned, codes[..next], start)
  {
    LayoutNext(aligned, codes, start, i, next);
    LayoutGrows(aligned, codes, start, next);
    var before := Before(aligned, codes, start, i);
    assert before + codes[i] == Layout(aligned, codes[..next], start);
    assert |before + codes[i]| == |before| + |codes[i]|;
  }

  lemma GapIsSkip(pos: nat)
    ensures AlignWorks(8, pos) && Gap(true, pos) == AlignSkip(8, pos)
  {}

  /** The writer's own alignment agrees with the layout's gap. */
  method AlignIf(w: BitStreamWriter, aligned: bool) returns (ok: bool)
    requires w.Valid()
    modifies w`bitIndex, w.buffer
    ensures w.Valid()
    ensures ok <==> old(w.HasRoom(Gap(aligned, w.bitIndex)))
    ensures ok ==> w.Wrote(old(w.Bits()), old(w.bitIndex), ToBits(Gap(aligned, old(w.bitIndex)), 0))
  {
    if aligned {
      GapIsSkip(w.bitIndex);
      ok := w.AlignTo(8);
    } else {
      w.WroteNothing();
      ok := true;
    }
  }

  /** The gap before element `i`. */
  method WriteGap(w: BitStreamWriter, aligned: bool, ghost codes: seq<seq<bool>>, ghost i: nat, ghost was: seq<bool>, ghost start: nat) returns (ok: bool)
    requires w.Valid() && i < |codes| && w.Wrote(was, start, Layout(aligned, codes[..i], start))
    modifies w`bitIndex, w.buffer
    ensures w.Valid()
    ensures ok ==> w.Wrote(was, start, Before(aligned, codes, start, i))
    ensures !ok ==> w.buffer != null && start + |Before(aligned, codes, start, i)| > w.bufferBitSize
  {
    ghost var front, mid, at := Layout(aligned, codes[..i], start), w.Bits(), w.bitIndex;
    ok := AlignIf(w, aligned);
    if ok { w.WroteThen(was, start, front, mid, at, ToBits(Gap(aligned, at), 0)); }
  }

  /** There is room for all of `codes` from `start` on. */
  ghost predicate RoomFor(w: BitStreamWriter, aligned: bool, codes: seq<seq<bool>>, start: nat) {
    w.buffer == null || start + |Layout(aligned, codes, start)| <= w.bufferBitSize
  }

  method WriteElemAfter(w: BitStreamWriter, t: ElemType, x: int, ghost was: seq<bool>, ghost start: nat, ghost prefix: seq<bool>) returns (ok: bool)
    requires w.Valid() && InElem(t, x) && w.Wrote(was, start, prefix)
    modifies w`bitIndex, w.buffer
    ensures w.Valid()
    ensures ok <==> old(w.HasRoom(|ElemCode(t, x)|))
    ensures ok ==> w.Wrote(was, start, prefix + ElemCode(t, x))
  {
    ghost var mid, at := w.Bits(), w.bitIndex;
    ok := WriteElem(w, t, x);
    if ok { w.WroteThen(was, start, prefix, mid, at, ElemCode(t, x)); }
  }

  method WriteElement(w: BitStreamWriter, t: ElemType, aligned: bool, x: int, ghost codes: seq<seq<bool>>, ghost i: nat,
                      ghost was: seq<bool>, ghost start: nat) returns (ok: bool)
    requires w.Valid() && InElem(t, x) && i < |codes| && codes[i] == ElemCode(t, x) && w.Wrote(was, start, Layout(aligned, codes[..i], start))
    modifies w`bitIndex, w.buffer
    ensures w.Valid()
    ensures ok ==> w.Wrote(was, start, Layout(aligned, codes[..i + 1], start))
    ensures !ok ==> !RoomFor(w, aligned, codes, start)
  {
    Reach(aligned, codes, start, i, i + 1);
    ok := WriteGap(w, aligned, codes, i, was, start);
    if !ok { return; }
    ok := WriteElemAfter(w, t, x, was, start, Before(aligned, codes, start, i));
  }

  lemma AllWritten(w: BitStreamWriter, aligned: bool, codes: seq<seq<bool>>, n: nat, was: seq<bool>, start: nat)
    requires w.Valid() && n == |codes| && w.Wrote(was, start, Layout(aligned, codes[..n], start))
    ensures w.Wrote(was, start, Layout(aligned, codes, start)) && RoomFor(w, aligned, codes, start)
  {
    assert codes[..n] == codes;
  }

  method WriteElems(w: BitStreamWriter, t: ElemType, aligned: bool, xs: seq<int>) returns (ok: bool)
    requires w.Valid() && AllIn(t, xs)
    modifies w`bitIndex, w.buffer
    ensures w.Valid()
    ensures ok <==> RoomFor(w, aligned, PlainCodes(t, xs), old(w.bitIndex))
    ensures ok ==> w.Wrote(old(w.Bits()), old(w.bitIndex), Layout(aligned, PlainCodes(t, xs), old(w.bitIndex)))
  {
    ghost var was, start, codes := w.Bits(), w.bitIndex, PlainCodes(t, xs);
    w.WroteNothing();
    var i := 0;
    while i < |xs|
      invariant 0 <= i <= |xs| && w.Valid()
      invariant w.Wrote(was, start, Layout(aligned, codes[..i], start))
    {
      ok := WriteElement(w, t, aligned, xs[i], codes, i, was, start);
      if !ok { return; }
      i := i + 1;
    }
    AllWritten(w, aligned, codes, i, was, start);
    ok := true;
  }

  method WritePackedAfter(w: BitStreamWriter, context: DeltaContext, t: ElemType, xs: seq<int>, i: nat, ghost next: nat,
                          ghost was: seq<bool>, ghost start: nat, ghost prefix: seq<bool>, ghost code: seq<bool>) returns (ok: bool)
    requires w.Valid() && context.Following(t, xs, i) && next == i + 1 <= |xs| && w.Wrote(was, start, prefix)
    requires code == PackedCode(t, xs, i)
    modifies context, w`bitIndex, w.buffer
    ensures w.Valid()
    ensures ok <==> old(w.HasRoom(|code|))
    ensures ok ==> context.Following(t, xs, next) && w.Wrote(was, start, prefix + code)
  {
    ghost var mid, at := w.Bits(), w.bitIndex;
    ok := context.Write(w, t, xs[i], xs, i, next);
    if ok { w.WroteThen(was, start, prefix, mid, at, code); }
  }

  method WriteElementPacked(w: BitStreamWriter, context: DeltaContext, t: ElemType, aligned: bool, xs: seq<int>, i: nat, next: nat,
                            ghost codes: seq<seq<bool>>, ghost was: seq<bool>, ghost start: nat) returns (ok: bool)
    requires w.Valid() && next == i + 1 <= |xs| && context.Following(t, xs, i) && codes == PackedCodes(t, xs)
    requires w.Wrote(was, start, Layout(aligned, codes[..i], start))
    modifies context, w`bitIndex, w.buffer
    ensures w.Valid()
    ensures ok ==> context.Following(t, xs, next) && w.Wrote(was, start, Layout(aligned, codes[..next], start))
    ensures !ok ==> !RoomFor(w, aligned, codes, start)
  {
    Reach(aligned, codes, start, i, next);
    ok := WriteGap(w, aligned, codes, i, was, start);
    if !ok { return; }
    ok := WritePackedAfter(w, context, t, xs, i, next, was, start, Before(aligned, codes, start, i), codes[i]);
  }

  method WriteEachPacked(w: BitStreamWriter, context: DeltaContext, t: ElemType, aligned: bool, xs: seq<int>,
                         ghost codes: seq<seq<bool>>, ghost was: seq<bool>, ghost start: nat) returns (ok: bool)
    requires w.Valid() && context.Following(t, xs, 0) && codes == PackedCodes(t, xs) && w.Wrote(was, start, Layout(aligned, codes[..0], start))
    modifies context, w`bitIndex, w.buffer
    ensures w.Valid() && (ok <==> RoomFor(w, aligned, codes, start))
    ensures ok ==> w.Wrote(was, start, Layout(aligned, codes, start))
  {
    var i := 0;
    while i < |xs|
      invariant 0 <= i <= |xs| && w.Valid() && context.Following(t, xs, i)
      invariant w.Wrote(was, start, Layout(aligned, codes[..i], start))
    {
      var next := i + 1;
      ok := WriteElementPacked(w, context, t, aligned, xs, i, next, codes, was, start);
      if !ok { return; }
      i := next;
    }
    AllWritten(w, aligned, codes, i, was, start);
    ok := true;
  }

  method WriteElemsPacked(w: BitStreamWriter, t: ElemType, aligned: bool, xs: seq<int>) returns (ok: bool)
    requires w.Valid() && AllIn(t, xs)
    modifies w`bitIndex, w.buffer
    ensures w.Valid()
    ensures ok <==> RoomFor(w, aligned, PackedCodes(t, xs), old(w.bitIndex))
    ensures ok ==> w.Wrote(old(w.Bits()), old(w.bitIndex), Layout(aligned, PackedCodes(t, xs), old(w.bitIndex)))
  {
    ghost var was, start, codes := w.Bits(), w.bitIndex, PackedCodes(t, xs);
    w.WroteNothing();
    if |xs| > 0 {
      var context := NewContext(t, xs);
      ok := WriteEachPacked(w, context, t, aligned, xs, codes, was, start);
    } else {
      ok := true;
    }
  }

  method WriteLengthPart(w: BitStreamWriter, a: ArrayType, n: nat) returns (ok: bool)
    requires w.Valid()
    modifies w`bitIndex, w.buffer
    ensures w.Valid()
    ensures ok <==> a.Countable(n) && old(w.HasRoom(|LengthPart(a, n)|))
    ensures ok ==> w.Wrote(old(w.Bits()), old(w.bitIndex), LengthPart(a, n))
  {
    if a.HasLength() {
      ok := w.WriteLength(n);
    } else {
      w.WroteNothing();
      ok := true;
    }
  }

  /** The elements, behind a length part that has been written. */
  lemma BehindLength(length: seq<bool>, aligned: bool, codes: seq<seq<bool>>, start: nat, at: nat)
    requires at == start + |length|
    ensures var layout := Layout(aligned, codes, at);
            ArrayCode(length, aligned, codes, start) == length + layout && start + |length + layout| == at + |layout|
  {}

  method WriteBody(w: BitStreamWriter, t: ElemType, aligned: bool, packed: bool, xs: seq<int>,
                   ghost codes: seq<seq<bool>>, ghost was: seq<bool>, ghost start: nat, ghost length: seq<bool>) returns (ok: bool)
    requires w.Valid() && AllIn(t, xs) && codes == Codes(t, packed, xs) && w.Wrote(was, start, length)
    modifies w`bitIndex, w.buffer
    ensures w.Valid()
    ensures ok <==> w.buffer == null || start + |ArrayCode(length, aligned, codes, start)| <= w.bufferBitSize
    ensures ok ==> w.Wrote(was, start, ArrayCode(length, aligned, codes, start))
  {
    ghost var mid, at := w.Bits(), w.bitIndex;
    BehindLength(length, aligned, codes, start, at);
    if packed {
      ok := WriteElemsPacked(w, t, aligned, xs);
    } else {
      ok := WriteElems(w, t, aligned, xs);
    }
    if ok { w.WroteThen(was, start, length, mid, at, Layout(aligned, codes, at)); }
  }

  /** An array: its length if it has one, then its elements. Without a buffer the writer
      only advances, by the same number of bits. */
  method Write(w: BitStreamWriter, t: ElemType, a: ArrayType, packed: bool, xs: seq<int>) returns (ok: bool)
    requires w.Valid() && AllIn(t, xs)
    modifies w`bitIndex, w.buffer
    ensures w.Valid()
    ensures ok <==> a.Countable(|xs|) && old(w.HasRoom(|ArrayBits(t, a, packed, xs, w.bitIndex)|))
    ensures ok ==> w.Wrote(old(w.Bits()), old(w.bitIndex), ArrayBits(t, a, packed, xs, old(w.bitIndex)))
  {
    ok := WriteLengthPart(w, a, |xs|);
    if ok {
      ok := WriteBody(w, t, a.IsAligned(), packed, xs, Codes(t, packed, xs), old(w.Bits()), old(w.bitIndex), LengthPart(a, |xs|));
    }
  }

  // ---- reading back -----------------------------------------------------

  /** `i` elements have been read from `start` on. */
  ghost predicate HasRead(t: ElemType, aligned: bool, st: DeltaState, i: nat, bits: seq<bool>, start: nat, xs: seq<int>, now: DeltaState, pos: nat) {
    ReadElems(ElemReader(t), aligned, st, i, bits, start) == Ok((xs, now), pos)
  }

  ghost predicate CannotRead(t: ElemType, aligned: bool, st: DeltaState, i: nat, bits: seq<bool>, start: nat) {
    ReadElems(ElemReader(t), aligned, st, i, bits, start).Failed?
  }

  lemma OneMore(t: ElemType, aligned: bool, st: DeltaState, i: nat, bits: seq<bool>, start: nat, xs: seq<int>, now: DeltaState, pos: nat,
                p: nat, x: int, next: DeltaState, q: nat)
    requires HasRead(t, aligned, st, i, bits, start, xs, now, pos) && p == pos + Gap(aligned, pos) <= |bits|
    requires ReadDelta(t, now, bits, p) == Ok((x, next), q)
    ensures HasRead(t, aligned, st, i + 1, bits, start, xs + [x], next, q)
  {
    ReadStep(ElemReader(t), aligned, st, i, i + 1, bits, start, xs, now, pos, p, x, next, q);
  }

  lemma NoMore(t: ElemType, aligned: bool, st: DeltaState, i: nat, bits: seq<bool>, start: nat, xs: seq<int>, now: DeltaState, pos: nat, p: nat)
    requires HasRead(t, aligned, st, i, bits, start, xs, now, pos)
    requires p == pos + Gap(aligned, pos) && (p > |bits| || ReadDelta(t, now, bits, p).Failed?)
    ensures CannotRead(t, aligned, st, i + 1, bits, start)
  {
    FailsAt(ElemReader(t), aligned, st, i, bits, start, xs, now, pos, p);
  }

  method SkipGap(r: BitStreamReader, aligned: bool) returns (ok: bool)
    requires r.Valid()
    modifies r
    ensures r.Sound()
    ensures ok <==> old(r.bitIndex) + Gap(aligned, old(r.bitIndex)) <= r.bufferBitSize
    ensures ok ==> r.Valid() && r.bitIndex == old(r.bitIndex) + Gap(aligned, old(r.bitIndex))
  {
    if !aligned { return true; }
    GapIsSkip(r.bitIndex);
    ok := r.AlignTo(8);
  }

  method ReadPlainElement(r: BitStreamReader, t: ElemType, aligned: bool, ghost i: nat, ghost start: nat, ghost xs: seq<int>) returns (res: Read<int>)
    requires r.Valid() && HasRead(t, aligned, Plain, i, r.Bits(), start, xs, Plain, r.bitIndex)
    modifies r
    ensures r.Sound()
    ensures res.Ok? ==> r.Valid() && HasRead(t, aligned, Plain, i + 1, r.Bits(), start, xs + [res.value], Plain, r.bitIndex)
    ensures res.Failed? ==> CannotRead(t, aligned, Plain, i + 1, r.Bits(), start)
  {
    ghost var pos := r.bitIndex;
    var ok := SkipGap(r, aligned);
    if !ok {
      NoMore(t, aligned, Plain, i, r.Bits(), start, xs, Plain, pos, pos + Gap(aligned, pos));
      return Failed;
    }
    ghost var p := r.bitIndex;
    res := ReadElemFrom(r, t);
    if res.Ok? {
      OneMore(t, aligned, Plain, i, r.Bits(), start, xs, Plain, pos, p, res.value, Plain, r.bitIndex);
    } else {
      NoMore(t, aligned, Plain, i, r.Bits(), start, xs, Plain, pos, p);
    }
  }

  method ReadPlainElems(r: BitStreamReader, t: ElemType, aligned: bool, n: nat) returns (res: Read<seq<int>>)
    requires r.Valid()
    modifies r
    ensures r.Sound()
    ensures res.Ok? ==> r.Valid() && res.pos == r.bitIndex && HasRead(t, aligned, Plain, n, r.Bits(), old(r.bitIndex), res.value, Plain, res.pos)
    ensures res.Failed? ==> CannotRead(t, aligned, Plain, n, r.Bits(), old(r.bitIndex))
  {
    ghost var start := r.bitIndex;
    var xs := [];
    for i := 0 to n
      invariant r.Valid() && HasRead(t, aligned, Plain, i, r.Bits(), start, xs, Plain, r.bitIndex)
    {
      var x := ReadPlainElement(r, t, aligned, i, start, xs);
      if x.Failed? {
        FailsOn(ElemReader(t), aligned, Plain, i + 1, n, r.Bits(), start);
        return Failed;
      }
      xs := xs + [x.value];
    }
    res := Ok(xs, r.bitIndex);
  }

  method ReadPackedElement(r: BitStreamReader, context: DeltaContext, t: ElemType, aligned: bool, ghost i: nat, ghost start: nat, ghost xs: seq<int>)
    returns (res: Read<int>)
    requires r.Valid() && (context.isPacked ==> context.maxBitNumber < 64)
    requires HasRead(t, aligned, Fresh, i, r.Bits(), start, xs, context.State(), r.bitIndex)
    modifies context, r
    ensures r.Sound()
    ensures res.Ok? ==> r.Valid() && (context.isPacked ==> context.maxBitNumber < 64)
    ensures res.Ok? ==> HasRead(t, aligned, Fresh, i + 1, r.Bits(), start, xs + [res.value], context.State(), r.bitIndex)
    ensures res.Failed? ==> CannotRead(t, aligned, Fresh, i + 1, r.Bits(), start)
  {
    ghost var pos, now := r.bitIndex, context.State();
    var ok := SkipGap(r, aligned);
    if !ok {
      NoMore(t, aligned, Fresh, i, r.Bits(), start, xs, now, pos, pos + Gap(aligned, pos));
      return Failed;
    }
    ghost var p := r.bitIndex;
    res := context.Read(r, t);
    if res.Ok? {
      OneMore(t, aligned, Fresh, i, r.Bits(), start, xs, now, pos, p, res.value, context.State(), r.bitIndex);
    } else {
      NoMore(t, aligned, Fresh, i, r.Bits(), start, xs, now, pos, p);
    }
  }

  method ReadPackedElems(r: BitStreamReader, t: ElemType, aligned: bool, n: nat) returns (res: Read<seq<int>>, ghost last: DeltaState)
    requires r.Valid()
    modifies r
    ensures r.Sound()
    ensures res.Ok? ==> r.Valid() && res.pos == r.bitIndex && HasRead(t, aligned, Fresh, n, r.Bits(), old(r.bitIndex), res.value, last, res.pos)
    ensures res.Failed? ==> CannotRead(t, aligned, Fresh, n, r.Bits(), old(r.bitIndex))
  {
    ghost var start := r.bitIndex;
    var xs := [];
    var context := new DeltaContext();
    for i := 0 to n
      invariant fresh(context) && r.Valid() && (context.isPacked ==> context.maxBitNumber < 64)
      invariant HasRead(t, aligned, Fresh, i, r.Bits(), start, xs, context.State(), r.bitIndex)
    {
      var x := ReadPackedElement(r, context, t, aligned, i, start, xs);
      if x.Failed? {
        FailsOn(ElemReader(t), aligned, Fresh, i + 1, n, r.Bits(), start);
        return Failed, Fresh;
      }
      xs := xs + [x.value];
    }
    res, last := Ok(xs, r.bitIndex), context.State();
  }

  /** An array whose length is given, or stands before it. */
  method Read(r: BitStreamReader, t: ElemType, a: ArrayType, packed: bool, arrayLength: nat) returns (res: Read<seq<int>>)
    requires r.Valid()
    modifies r
    ensures r.Sound() && (res.Ok? ==> r.Valid() && res.pos == r.bitIndex)
    ensures res == ReadArray(t, a, if packed then Fresh else Plain, arrayLength, r.Bits(), old(r.bitIndex))
  {
    var n := arrayLength;
    if a.HasLength() {
      var length := r.ReadVar(VarNum.VarSize);
      if length.Failed? { return Failed; }
      n := length.value;
    }
    if packed {
      ghost var last;
      res, last := ReadPackedElems(r, t, a.IsAligned(), n);
    } else {
      res := ReadPlainElems(r, t, a.IsAligned(), n);
    }
  }

  /** Either way of writing, read back the same way. */
  lemma ArrayRoundTrip(t: ElemType, a: ArrayType, packed: bool, xs: seq<int>, bits: seq<bool>, pos: nat) returns (end: nat)
    requires AllIn(t, xs) && a.Countable(|xs|) && At(bits, pos, ArrayBits(t, a, packed, xs, pos))
    ensures ReadArray(t, a, if packed then Fresh else Plain, |xs|, bits, pos) == Ok(xs, end)
    ensures end == pos + |ArrayBits(t, a, packed, xs, pos)|
  {
    if packed {
      end := PackedRoundTrip(t, a, xs, bits, pos);
    } else {
      end := PlainRoundTrip(t, a, xs, bits, pos);
    }
  }

  method ReadFrom(buffer: seq<byte>, size: nat, start: nat, t: ElemType, a: ArrayType, packed: bool, ghost xs: seq<int>, n: nat) returns (ys: seq<int>)
    requires (size + 7) / 8 <= |buffer| && start <= size && AllIn(t, xs) && a.Countable(|xs|) && n == |xs|
    requires At(BytesBits(buffer)[..size], start, ArrayBits(t, a, packed, xs, start))
    ensures ys == xs
  {
    var r := new BitStreamReader(buffer, size);
    var ok := r.SetBitPosition(start);
    ghost var end := ArrayRoundTrip(t, a, packed, xs, r.Bits(), start);
    var res := Read(r, t, a, packed, n);
    ys := res.value;
  }

  /** A buffer of exactly the calculated size takes the array, and gives it back, if and only
      if the size did not wrap. */
  method Transfer(t: ElemType, a: ArrayType, packed: bool, xs: seq<int>, start: nat) returns (ok: bool, ys: seq<int>)
    requires AllIn(t, xs) && start < U32
    ensures ok <==> a.Countable(|xs|) && |ArrayBits(t, a, packed, xs, start)| < U32
    ensures ok ==> ys == xs
  {
    var size;
    ok, size := BitSizeOf(t, a, packed, xs, start);
    ys := [];
    if !ok { return; }
    var buffer := new byte[(start + size + 7) / 8];
    var w := new BitStreamWriter(buffer, start + size);
    ok := w.SetBitPosition(start);
    ghost var was := w.Bits();
    NoWrapIff(|ArrayBits(t, a, packed, xs, start)|, U32);
    ok := Write(w, t, a, packed, xs);
    if !ok { return; }
    ReadableAt(was, buffer[..], start + size, start, ArrayBits(t, a, packed, xs, start));
    ys := ReadFrom(buffer[..], start + size, start, t, a, packed, xs, |xs|);
  }
}
