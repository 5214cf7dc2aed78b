/** What a bit reader may observe: reading as a function of a bit string and a position.
    This is the bit-at-a-time reader the cached one is measured against. */
module Wire {
  import opened Bits

  /** The outcome of one read; `Failed` stands for the exceptions the readers throw. */
  datatype Read<+T> = Ok(value: T, pos: nat) | Failed {
    predicate IsFailure() { Failed? }

    function PropagateFailure<U>(): Read<U>
      requires Failed?
    {
      Failed
    }

    function Extract(): (T, nat)
      requires Ok?
    {
      (value, pos)
    }
  }

  /** `pos + |x| <= |bits|` and the bits at `pos` are `x`. */
  ghost predicate At(bits: seq<bool>, pos: nat, x: seq<bool>) {
    pos + |x| <= |bits| && bits[pos..pos + |x|] == x
  }

  lemma AtSplit(bits: seq<bool>, pos: nat, x: seq<bool>, y: seq<bool>)
    requires At(bits, pos, x + y)
    ensures At(bits, pos, x) && At(bits, pos + |x|, y)
  {
    assert bits[pos..pos + |x|] == bits[pos..pos + |x + y|][..|x|] == x;
    assert bits[pos + |x|..pos + |x| + |y|] == bits[pos..pos + |x + y|][|x|..] == y;
  }

  lemma AtLast(bits: seq<bool>, pos: nat, x: seq<bool>, y: seq<bool>, z: seq<bool>)
    requires At(bits, pos, x + y + z)
    ensures At(bits, pos, x) && At(bits, pos + |x| + |y|, z)
  {
    AtSplit(bits, pos, x + y, z);
    AtSplit(bits, pos, x, y);
  }

  /** What has been spliced in can be read there. */
  lemma ReadableAt(was: seq<bool>, now: seq<byte>, size: nat, start: nat, code: seq<bool>)
    requires start + |code| <= size <= |was| && BytesBits(now) == Splice(was, start, code)
    ensures At(BytesBits(now)[..size], start, code)
  {
    SpliceFrame(was, start, code);
    assert BytesBits(now)[..size][start..start + |code|] == BytesBits(now)[start..start + |code|];
  }

  function ReadUnsigned(bits: seq<bool>, pos: nat, n: nat): (r: Read<nat>)
    ensures r.Ok? <==> pos + n <= |bits|
    ensures r.Ok? ==> r.value < Pow2(n) && r.pos == pos + n
  {
    if pos + n <= |bits| then
      FromBitsBound(bits[pos..pos + n]);
      Ok(FromBits(bits[pos..pos + n]), pos + n)
    else
      Failed
  }

  /** Two's complement in `n` bits, both ways. */
  function Encode2s(n: nat, v: int): (w: nat)
    requires n > 0
    ensures w < Pow2(n)
  {
    v % Pow2(n)
  }

  function Decode2s(n: nat, w: nat): int
    requires n > 0
  {
    if w >= Pow2(n - 1) then w - Pow2(n) else w
  }

  function ReadSigned(bits: seq<bool>, pos: nat, n: nat): (r: Read<int>)
    requires n > 0
  {
    var (w, p) :- ReadUnsigned(bits, pos, n);
    Ok(Decode2s(n, w), p)
  }

  ghost predicate FitsUnsigned(n: nat, v: int) { 0 <= v < Pow2(n) }

  ghost predicate FitsSigned(n: nat, v: int)
    requires n > 0
  {
    0 <= v + Pow2(n - 1) && v < Pow2(n - 1)
  }

  lemma TwosComplement(n: nat, v: int)
    requires n > 0 && FitsSigned(n, v)
    ensures Decode2s(n, Encode2s(n, v)) == v
  {
    if v >= 0 {
      DivModUnique(v, Pow2(n), 0, v);
    } else {
      DivModUnique(v, Pow2(n), -1, v + Pow2(n));
    }
  }

  lemma ReadBackUnsigned(bits: seq<bool>, pos: nat, n: nat, v: nat)
    requires v < Pow2(n) && At(bits, pos, ToBits(n, v))
    ensures ReadUnsigned(bits, pos, n) == Ok(v, pos + n)
  {
    FromTo(n, v);
    LowSmall(v, n);
  }

  lemma SliceOfSlice(bits: seq<bool>, pos: nat, end: nat, a: nat, b: nat)
    requires pos <= end <= |bits| && a <= b <= end - pos
    ensures bits[pos + a..pos + b] == bits[pos..end][a..b]
  {
    var whole := bits[pos..end];
    assert forall i :: 0 <= i < b - a ==> bits[pos + a..pos + b][i] == whole[a..b][i];
  }

  /** Byte `i` of a byte string that lies at `pos`. */
  lemma ReadBackByte(bits: seq<bool>, pos: nat, s: seq<byte>, i: nat)
    requires i < |s| && At(bits, pos, BytesBits(s))
    ensures ReadUnsigned(bits, pos + 8 * i, 8) == Ok(s[i], pos + 8 * i + 8)
  {
    BytesBitsByte(s, i);
    SliceOfSlice(bits, pos, pos + 8 * |s|, 8 * i, 8 * i + 8);
    assert bits[pos + 8 * i..pos + 8 * i + 8] == ToBits(8, s[i]);
    ByteFromBits(s[i]);
  }

  lemma ReadBackSigned(bits: seq<bool>, pos: nat, n: nat, v: int)
    requires n > 0 && FitsSigned(n, v) && At(bits, pos, ToBits(n, Encode2s(n, v)))
    ensures ReadSigned(bits, pos, n) == Ok(v, pos + n)
  {
    ReadBackUnsigned(bits, pos, n, Encode2s(n, v));
    TwosComplement(n, v);
  }

  /** Zero bits up to the next multiple of `alignment`. */
  function PadLength(alignment: nat, pos: nat): (n: nat)
    requires alignment > 0
    ensures (pos + n) % alignment == 0 && n < alignment
  {
    if pos % alignment == 0 then 0
    else
      PadAligns(alignment, pos);
      alignment - pos % alignment
  }

  lemma PadAligns(alignment: nat, pos: nat)
    requires alignment > 0
    ensures (pos + (alignment - pos % alignment)) % alignment == 0
  {
    var q := pos / alignment;
    assert pos == alignment * q + pos % alignment;
    DivModUnique(pos + (alignment - pos % alignment), alignment, q + 1, 0);
  }

  /** The bits the streams skip: the padding, narrowed to one byte. */
  function AlignSkip(alignment: nat, pos: nat): (n: nat)
    requires alignment > 0
    ensures n < 256
  {
    PadLength(alignment, pos) % 256
  }

  predicate AlignWorks(alignment: nat, pos: nat)
    requires alignment > 0
  {
    PadLength(alignment, pos) == 0 || 1 <= AlignSkip(alignment, pos) <= 64
  }

  lemma SkipOf(alignment: nat, pos: nat, offset: nat)
    requires alignment > 0 && offset == pos % alignment
    ensures AlignSkip(alignment, pos) == if offset == 0 then 0 else (alignment - offset) % 256
    ensures AlignWorks(alignment, pos) <==> offset == 0 || 1 <= AlignSkip(alignment, pos) <= 64
  {}

  /** When the streams do not refuse to align, they reach a multiple of `alignment` exactly
      if no more than 64 bits were missing. */
  lemma AlignReaches(alignment: nat, pos: nat)
    requires alignment > 0 && AlignWorks(alignment, pos)
    ensures (pos + AlignSkip(alignment, pos)) % alignment == 0 <==> PadLength(alignment, pos) <= 64
  {
    var pad, skip := PadLength(alignment, pos), AlignSkip(alignment, pos);
    if pad > 64 {
      assert pad >= 256 && 0 < skip < pad;
      var q := pos / alignment;
      assert pos == alignment * q + pos % alignment;
      DivModUnique(pos + skip, alignment, q, pos % alignment + skip);
    }
  }

  /** The position arithmetic that size calculation uses. */
  function AlignTo(alignment: nat, pos: nat): nat {
    if pos > 0 && alignment != 0 then ((pos - 1) / alignment + 1) * alignment else pos
  }

  lemma OneBefore(alignment: nat, q: nat, pos: nat)
    requires alignment > 0 && pos == alignment * q && pos > 0
    ensures ((pos - 1) / alignment + 1) * alignment == pos
  {
    assert q > 0;
    assert pos - 1 == (q - 1) * alignment + (alignment - 1);
    DivModUnique(pos - 1, alignment, q - 1, alignment - 1);
  }

  lemma NoneBefore(alignment: nat, q: nat, r: nat, pos: nat)
    requires pos == alignment * q + r && 0 < r < alignment
    ensures ((pos - 1) / alignment + 1) * alignment == pos + (alignment - r)
  {
    DivModUnique(pos - 1, alignment, q, r - 1);
    assert (q + 1) * alignment == alignment * q + alignment;
  }

  lemma RoundedUp(alignment: nat, q: nat, r: nat, pos: nat)
    requires pos > 0 && pos == alignment * q + r && 0 <= r < alignment
    ensures ((pos - 1) / alignment + 1) * alignment == pos + if r == 0 then 0 else alignment - r
  {
    if r == 0 { OneBefore(alignment, q, pos); } else { NoneBefore(alignment, q, r, pos); }
  }

  /** Size calculation and the streams agree on where alignment leads. */
  lemma AlignToIsPad(alignment: nat, pos: nat)
    requires alignment > 0
    ensures AlignTo(alignment, pos) == pos + PadLength(alignment, pos)
  {
    if pos > 0 { RoundedUp(alignment, pos / alignment, pos % alignment, pos); }
  }

  // ---- one item after another -------------------------------------------

  function Concat(codes: seq<seq<bool>>): seq<bool> {
    if codes == [] then [] else codes[0] + Concat(codes[1..])
  }

  lemma {:induction false} ConcatSnoc(codes: seq<seq<bool>>, c: seq<bool>)
    ensures Concat(codes + [c]) == Concat(codes) + c
  {
    if codes != [] {
      ConcatSnoc(codes[1..], c);
      assert (codes + [c])[1..] == codes[1..] + [c];
    }
  }

  /** The first `i` codes take no more room than all of them. */
  lemma {:induction false} ConcatPrefix(codes: seq<seq<bool>>, i: nat)
    requires i <= |codes|
    ensures |Concat(codes[..i])| <= |Concat(codes)|
    decreases |codes|
  {
    if i > 0 {
      ConcatPrefix(codes[1..], i - 1);
      assert codes[..i][1..] == codes[1..][..i - 1];
    }
  }

  function ReadEach<S, T>(read: (S, seq<bool>, nat) -> Read<T>, shapes: seq<S>, bits: seq<bool>, pos: nat): (r: Read<seq<T>>)
    ensures r.Ok? ==> |r.value| == |shapes|
  {
    if shapes == [] then Ok([], pos)
    else
      var (x, p) :- read(shapes[0], bits, pos);
      var (xs, q) :- ReadEach(read, shapes[1..], bits, p);
      Ok([x] + xs, q)
  }

  /** `read` returns something `same` as `item` wherever its code lies in `bits`. */
  ghost predicate ReadsItem<S, T, A>(read: (S, seq<bool>, nat) -> Read<T>, same: (A, T) -> bool, shape: S, code: seq<bool>, item: A, bits: seq<bool>) {
    forall p: nat :: At(bits, p, code) ==>
      var r := read(shape, bits, p); r.Ok? && r.pos == p + |code| && same(item, r.value)
  }

  /** If each item is read back, so is any sequence of them. */
  lemma {:induction false} EachBack<S, T, A>(read: (S, seq<bool>, nat) -> Read<T>, same: (A, T) -> bool,
                                             shapes: seq<S>, codes: seq<seq<bool>>, items: seq<A>, bits: seq<bool>, pos: nat)
    requires |shapes| == |codes| == |items| && At(bits, pos, Concat(codes))
    requires forall i :: 0 <= i < |items| ==> ReadsItem(read, same, shapes[i], codes[i], items[i], bits)
    ensures var r := ReadEach(read, shapes, bits, pos);
            r.Ok? && r.pos == pos + |Concat(codes)| && forall i :: 0 <= i < |items| ==> same(items[i], r.value[i])
    decreases |items|
  {
    if items != [] {
      AtSplit(bits, pos, codes[0], Concat(codes[1..]));
      assert ReadsItem(read, same, shapes[0], codes[0], items[0], bits);
      EachBack(read, same, shapes[1..], codes[1..], items[1..], bits, pos + |codes[0]|);
      var rest := ReadEach(read, shapes[1..], bits, pos + |codes[0]|).value;
      var x := read(shapes[0], bits, pos).value;
      forall i | 0 <= i < |items| ensures same(items[i], ([x] + rest)[i]) {
        if i > 0 { assert same(items[1..][i - 1], rest[i - 1]); }
      }
    }
  }
}
