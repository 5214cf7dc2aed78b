/** Variable-length integers: the bytes the writer emits and the value the reader makes of
    them. The first byte of a signed number holds its sign; every byte but the last says
    that another one follows, except that the last byte of the longest form is all payload. */
module VarNum {
  import opened Bits
  import opened Wire

  datatype VarKind =
    | VarInt16 | VarInt32 | VarInt64 | VarInt
    | VarUInt16 | VarUInt32 | VarUInt64 | VarUInt
    | VarSize
  {
    function MaxBytes(): (n: nat)
      ensures 2 <= n <= 9
    {
      match this
      case VarInt16 => 2
      case VarUInt16 => 2
      case VarInt32 => 4
      case VarUInt32 => 4
      case VarSize => 5
      case VarInt64 => 8
      case VarUInt64 => 8
      case VarInt => 9
      case VarUInt => 9
    }

    predicate Signed() { VarInt16? || VarInt32? || VarInt64? || VarInt? }
  }

  const VARSIZE_MAX: nat := 0x7fff_ffff
  const INT64_MIN: int := -0x8000_0000_0000_0000

  /** Payload bits of an `n`-byte number. */
  function PayloadBits(k: VarKind, n: nat): nat
    requires 1 <= n <= k.MaxBytes()
  {
    (if k.Signed() then 6 else 7) + 7 * (n - 1) + (if n == k.MaxBytes() then 1 else 0)
  }

  /** The greatest magnitude that `n` bytes are used for. */
  function MaxValue(k: VarKind, n: nat): nat
    requires 1 <= n <= k.MaxBytes()
  {
    if k.VarSize? && n == 5 then VARSIZE_MAX else Pow2(PayloadBits(k, n)) - 1
  }

  function Abs(v: int): nat { if v < 0 then -v else v }

  /** `n` bytes are enough for `v`. The one value with a form of its own is INT64_MIN. */
  predicate FitsIn(k: VarKind, v: int, n: nat) {
    1 <= n <= k.MaxBytes() &&
    if k.VarInt? && v == INT64_MIN then n == 1
    else (v < 0 ==> k.Signed()) && Abs(v) <= MaxValue(k, n)
  }

  predicate InRange(k: VarKind, v: int) { exists n :: 1 <= n <= 9 && FitsIn(k, v, n) }

  /** The number of bytes the size calculation settles on: the least that fit, if any do. */
  function LeastFit(k: VarKind, v: nat, from: nat): (n: nat)
    requires 1 <= from <= k.MaxBytes() + 1
    ensures from <= n <= k.MaxBytes() + 1
    ensures n <= k.MaxBytes() ==> v <= MaxValue(k, n)
    ensures forall m :: from <= m < n ==> v > MaxValue(k, m)
    decreases k.MaxBytes() + 1 - from
  {
    if from > k.MaxBytes() || v <= MaxValue(k, from) then from else LeastFit(k, v, from + 1)
  }

  /** Bytes used for an in-range value. */
  function ByteCount(k: VarKind, v: int): (n: nat)
    requires InRange(k, v)
    ensures FitsIn(k, v, n) && forall m :: FitsIn(k, v, m) ==> n <= m
  {
    if k.VarInt? && v == INT64_MIN then 1 else LeastFit(k, Abs(v), 1)
  }

  // ---- emitting ---------------------------------------------------------

  /** Payload width of byte `i` of `n`. */
  function PayloadOf(k: VarKind, n: nat, i: nat): (w: nat)
    requires i < n <= k.MaxBytes()
    ensures 6 <= w <= 8
  {
    8 - (if k.Signed() && i == 0 then 1 else 0)
      - (if i < n - 1 || n != k.MaxBytes() then 1 else 0)
  }

  function ShiftOf(k: VarKind, n: nat, i: nat): nat
    requires i < n <= k.MaxBytes()
  {
    (n - (i + 1)) * 7 + (if n == k.MaxBytes() && i < n - 1 then 1 else 0)
  }

  /** Byte `i` of the `n`-byte form of magnitude `v`: sign, continuation flag, payload. */
  function VarByte(k: VarKind, v: nat, negative: bool, n: nat, i: nat): (b: byte)
    requires i < n <= k.MaxBytes()
  {
    var w := PayloadOf(k, n, i);
    SmallPowers();
    LowBound(Shr(v, ShiftOf(k, n, i)), w);
    (if k.Signed() && i == 0 && negative then 128 else 0)
      + (if i < n - 1 then Pow2(w) else 0)
      + Low(Shr(v, ShiftOf(k, n, i)), w)
  }

  function VarBytes(k: VarKind, v: nat, negative: bool, n: nat): (s: seq<byte>)
    requires n <= k.MaxBytes()
    ensures |s| == n
  {
    seq(n, i requires 0 <= i < n => VarByte(k, v, negative, n, i))
  }

  /** The bytes of `v` in the `n`-byte form. */
  function EncodeIn(k: VarKind, v: int, n: nat): (s: seq<byte>)
    requires FitsIn(k, v, n)
    ensures |s| == n
  {
    if k.VarInt? && v == INT64_MIN then [0x80] else VarBytes(k, Abs(v), v < 0, n)
  }

  /** What the writer emits. */
  function Encode(k: VarKind, v: int): (bits: seq<bool>)
    requires InRange(k, v)
    ensures |bits| == 8 * ByteCount(k, v)
  {
    BytesBits(EncodeIn(k, v, ByteCount(k, v)))
  }

  // ---- reading ----------------------------------------------------------

  /** `byte & 0x80`: the sign of the first byte of a signed number, else whether one follows. */
  predicate TopBit(b: byte) { b >= 128 }

  /** `byte & 0x7f`. */
  function Payload7(b: byte): nat { if b >= 128 then b - 128 else b }

  /** Whether a byte follows the first one, and its payload: signed numbers have one bit less. */
  predicate FirstHasNext(k: VarKind, b: byte) { if k.Signed() then Payload7(b) >= 64 else TopBit(b) }

  function FirstPayload(k: VarKind, b: byte): nat {
    if !k.Signed() then Payload7(b) else if Payload7(b) >= 64 then Payload7(b) - 64 else Payload7(b)
  }

  /** The value so far with byte `b` at index `i` behind it; the last byte of the longest form
      is all payload. */
  function Extended(k: VarKind, i: nat, result: nat, b: byte): nat {
    if i == k.MaxBytes() - 1 then result * 256 + b else result * 128 + Payload7(b)
  }

  /** Bytes after the first; `i` have been read and give `result`. */
  function DecodeTail(k: VarKind, i: nat, result: nat, bits: seq<bool>, pos: nat): (r: Read<nat>)
    requires 1 <= i < k.MaxBytes()
    ensures r.Ok? ==> r.pos > pos
    decreases k.MaxBytes() - i
  {
    var (b, p) :- ReadUnsigned(bits, pos, 8);
    if i == k.MaxBytes() - 1 || !TopBit(b) then Ok(Extended(k, i, result, b), p)
    else DecodeTail(k, i + 1, Extended(k, i, result, b), bits, p)
  }

  /** The sign and magnitude as read. */
  function DecodeMagnitude(k: VarKind, bits: seq<bool>, pos: nat): Read<(bool, nat)> {
    var (b, p) :- ReadUnsigned(bits, pos, 8);
    var negative := k.Signed() && TopBit(b);
    if !FirstHasNext(k, b) then Ok((negative, FirstPayload(k, b)), p)
    else
      var (m, q) :- DecodeTail(k, 1, FirstPayload(k, b), bits, p);
      Ok((negative, m), q)
  }

  function WithSign(negative: bool, m: int): int { if negative then -m else m }

  /** The value of a magnitude: -0 is INT64_MIN for a one-byte varint; a varsize is
      accumulated in 32 bits and must then be below 2^31. */
  function Assemble(k: VarKind, negative: bool, m: nat, len: nat, pos: nat): (r: Read<int>)
    ensures r.Ok? && (k.VarSize? || !negative) ==> 0 <= r.value
    ensures r.Ok? && k.VarSize? ==> r.value <= VARSIZE_MAX
  {
    if k.VarSize? then
      if m % U32 > VARSIZE_MAX then Failed else Ok(m % U32, pos)
    else if k.VarInt? && negative && m == 0 && len == 8 then Ok(INT64_MIN, pos)
    else Ok(WithSign(negative, m), pos)
  }

  function Decode(k: VarKind, bits: seq<bool>, pos: nat): (r: Read<int>)
    ensures r.Ok? && !k.Signed() ==> 0 <= r.value
    ensures r.Ok? && k.VarSize? ==> r.value <= VARSIZE_MAX
  {
    var (sm, p) :- DecodeMagnitude(k, bits, pos);
    Assemble(k, sm.0, sm.1, p - pos, p)
  }

  // One step of the reader at a time.

  lemma TailStep(k: VarKind, i: nat, result: nat, bits: seq<bool>, pos: nat, b: byte, next: nat, after: nat, p: nat)
    requires 1 <= i < k.MaxBytes() && ReadUnsigned(bits, pos, 8) == Ok(b, p)
    requires next == i + 1 && after == Extended(k, i, result, b)
    ensures DecodeTail(k, i, result, bits, pos) ==
            if next == k.MaxBytes() || !TopBit(b) then Ok(after, p) else DecodeTail(k, next, after, bits, p)
  {}

  /** The number from its first byte and what the bytes behind it, if any, make of it. */
  lemma DecodeAfter(k: VarKind, bits: seq<bool>, pos: nat, b: byte, next: nat, rest: Read<nat>)
    requires next == pos + 8 && ReadUnsigned(bits, pos, 8) == Ok(b, next)
    requires rest == if FirstHasNext(k, b) then DecodeTail(k, 1, FirstPayload(k, b), bits, next) else Ok(FirstPayload(k, b), next)
    ensures rest.Ok? ==> rest.pos > pos
    ensures Decode(k, bits, pos) ==
              if rest.Ok? then Assemble(k, k.Signed() && TopBit(b), rest.value, rest.pos - pos, rest.pos) else Failed
  {}

  // ---- round trip -------------------------------------------------------

  /** What byte `b` at index `i > 0` does to the value read so far. */
  ghost predicate Extends(k: VarKind, n: nat, i: nat, b: byte, before: nat, after: nat) {
    Extended(k, i, before, b) == after && (i == k.MaxBytes() - 1 || (TopBit(b) <==> i < n - 1))
  }

  /** `q` is the part of the number that ends with this byte. */
  lemma ExtendsBy(k: VarKind, n: nat, i: nat, w: nat, b: byte, before: nat, q: nat)
    requires 1 <= i < n <= k.MaxBytes() && w == PayloadOf(k, n, i)
    requires Shl(before, w) + Low(q, w) == q
    requires b == (if i < n - 1 then Pow2(w) else 0) + Low(q, w)
    ensures Extends(k, n, i, b, before, q)
  {
    ByteShifts(q, w);
    ByteShifts(before, w);
  }

  lemma Shifts(k: VarKind, n: nat, i: nat)
    requires 1 <= i < n <= k.MaxBytes()
    ensures ShiftOf(k, n, i - 1) == ShiftOf(k, n, i) + PayloadOf(k, n, i)
  {}

  lemma NextByte(k: VarKind, v: nat, negative: bool, n: nat, i: nat)
    requires 1 <= i < n <= k.MaxBytes()
    ensures Extends(k, n, i, VarByte(k, v, negative, n, i), Shr(v, ShiftOf(k, n, i - 1)), Shr(v, ShiftOf(k, n, i)))
  {
    Shifts(k, n, i);
    var q := Shr(v, ShiftOf(k, n, i));
    Decompose(q, PayloadOf(k, n, i));
    ShrShr(v, ShiftOf(k, n, i), PayloadOf(k, n, i));
    ExtendsBy(k, n, i, PayloadOf(k, n, i), VarByte(k, v, negative, n, i), Shr(v, ShiftOf(k, n, i - 1)), Shr(v, ShiftOf(k, n, i)));
  }

  lemma TailExtends(k: VarKind, n: nat, i: nat, next: nat, b: byte, before: nat, after: nat, bits: seq<bool>, pos: nat, p: nat)
    requires 1 <= i < n <= k.MaxBytes() && next == i + 1 && Extends(k, n, i, b, before, after)
    requires ReadUnsigned(bits, pos, 8) == Ok(b, p)
    ensures DecodeTail(k, i, before, bits, pos) == if next == n then Ok(after, p) else DecodeTail(k, next, after, bits, p)
  {
    TailStep(k, i, before, bits, pos, b, next, after, p);
  }

  /** The reader follows the partial values `parts` byte by byte. */
  lemma {:induction false} TailDecodes(k: VarKind, s: seq<byte>, parts: seq<nat>, i: nat, bits: seq<bool>, pos: nat, at: nat, end: nat)
    requires 1 <= i < |s| == |parts| <= k.MaxBytes() && At(bits, pos, BytesBits(s)) && at == pos + 8 * i && end == pos + 8 * |s|
    requires AllExtend(k, s, parts)
    ensures DecodeTail(k, i, parts[i - 1], bits, at) == Ok(parts[|s| - 1], end)
    decreases |s| - i
  {
    ReadBackByte(bits, pos, s, i);
    assert Extends(k, |s|, i, s[i], parts[i - 1], parts[i]);
    TailExtends(k, |s|, i, i + 1, s[i], parts[i - 1], parts[i], bits, at, at + 8);
    if i < |s| - 1 { TailDecodes(k, s, parts, i + 1, bits, pos, at + 8, end); }
  }

  ghost predicate AllExtend(k: VarKind, s: seq<byte>, parts: seq<nat>) {
    |s| == |parts| && forall j :: 1 <= j < |s| ==> Extends(k, |s|, j, s[j], parts[j - 1], parts[j])
  }

  ghost predicate Starts(k: VarKind, n: nat, b: byte, negative: bool, first: nat) {
    FirstPayload(k, b) == first && (FirstHasNext(k, b) <==> n > 1) && (k.Signed() ==> (TopBit(b) <==> negative))
  }

  lemma StartsWith(k: VarKind, n: nat, b: byte, negative: bool, q: nat)
    requires 1 <= n <= k.MaxBytes() && (negative ==> k.Signed())
    requires var p := Pow2(PayloadOf(k, n, 0)); q < p && b == (if negative then 128 else 0) + (if n > 1 then p else 0) + q
    ensures Starts(k, n, b, negative, q)
  {
    SmallPowers();
    assert PayloadOf(k, n, 0) == if k.Signed() then 6 else 7;
  }

  lemma FirstByte(k: VarKind, v: nat, negative: bool, n: nat)
    requires 1 <= n <= k.MaxBytes() && v < Pow2(PayloadBits(k, n))
    requires negative ==> k.Signed()
    ensures Starts(k, n, VarByte(k, v, negative, n, 0), negative, Shr(v, ShiftOf(k, n, 0)))
  {
    var s, w := ShiftOf(k, n, 0), PayloadOf(k, n, 0);
    assert PayloadBits(k, n) == w + s;
    ShrBound(v, w, s);
    var q := Shr(v, s);
    LowSmall(q, w);
    StartsWith(k, n, VarByte(k, v, negative, n, 0), negative, q);
  }

  lemma MagnitudeDecodes(k: VarKind, s: seq<byte>, negative: bool, parts: seq<nat>, bits: seq<bool>, pos: nat)
    requires 1 <= |s| == |parts| <= k.MaxBytes() && At(bits, pos, BytesBits(s)) && (negative ==> k.Signed())
    requires Starts(k, |s|, s[0], negative, parts[0])
    requires AllExtend(k, s, parts)
    ensures DecodeMagnitude(k, bits, pos) == Ok((negative, parts[|s| - 1]), pos + 8 * |s|)
  {
    ReadBackByte(bits, pos, s, 0);
    if |s| > 1 { TailDecodes(k, s, parts, 1, bits, pos, pos + 8, pos + 8 * |s|); }
  }

  lemma MagnitudeRoundTrip(k: VarKind, v: nat, negative: bool, n: nat, bits: seq<bool>, pos: nat)
    requires 1 <= n <= k.MaxBytes() && v < Pow2(PayloadBits(k, n))
    requires negative ==> k.Signed()
    requires At(bits, pos, BytesBits(VarBytes(k, v, negative, n)))
    ensures DecodeMagnitude(k, bits, pos) == Ok((negative, v), pos + 8 * n)
  {
    var s := VarBytes(k, v, negative, n);
    var parts: seq<nat> := seq(n, i requires 0 <= i < n => Shr(v, ShiftOf(k, n, i)));
    FirstByte(k, v, negative, n);
    forall j | 1 <= j < n ensures Extends(k, n, j, s[j], parts[j - 1], parts[j]) {
      NextByte(k, v, negative, n, j);
    }
    MagnitudeDecodes(k, s, negative, parts, bits, pos);
    assert ShiftOf(k, n, n - 1) == 0;
  }

  lemma MaxValueFits(k: VarKind, n: nat)
    requires 1 <= n <= k.MaxBytes()
    ensures MaxValue(k, n) < Pow2(PayloadBits(k, n))
    ensures k.VarSize? ==> MaxValue(k, n) <= VARSIZE_MAX
  {
    WordPowers();
    if k.VarSize? {
      if n == 5 { Pow2Monotone(31, 36); } else { Pow2Monotone(PayloadBits(k, n), 31); }
    }
  }

  lemma AssembleBack(k: VarKind, v: int, n: nat, pos: nat)
    requires FitsIn(k, v, n) && !(k.VarInt? && v == INT64_MIN)
    ensures Assemble(k, v < 0, Abs(v), 8 * n, pos) == Ok(v, pos)
  {
    MaxValueFits(k, n);
  }

  lemma NegativeZero(bits: seq<bool>, pos: nat)
    requires At(bits, pos, BytesBits([0x80]))
    ensures Decode(VarInt, bits, pos) == Ok(INT64_MIN, pos + 8)
  {
    BytesBitsOne(0x80);
    SmallPowers();
    ReadBackUnsigned(bits, pos, 8, 0x80);
    assert DecodeMagnitude(VarInt, bits, pos) == Ok((true, 0), pos + 8);
  }

  /** A sign in front of nothing is zero in every other form and kind. */
  lemma SignedZero(k: VarKind, n: nat, bits: seq<bool>, pos: nat)
    requires (k.VarInt16? || k.VarInt32? || k.VarInt64? || k.VarInt?) && 1 <= n <= k.MaxBytes()
    requires At(bits, pos, BytesBits(VarBytes(k, 0, true, n)))
    ensures Decode(k, bits, pos) == Ok(if k.VarInt? && n == 1 then INT64_MIN else 0, pos + 8 * n)
  {
    MagnitudeRoundTrip(k, 0, true, n, bits, pos);
  }

  lemma DecodeFrom(k: VarKind, v: int, n: nat, bits: seq<bool>, pos: nat, end: nat)
    requires FitsIn(k, v, n) && !(k.VarInt? && v == INT64_MIN) && end - pos == 8 * n
    requires DecodeMagnitude(k, bits, pos) == Ok((v < 0, Abs(v)), end)
    ensures Decode(k, bits, pos) == Ok(v, end)
  {
    AssembleBack(k, v, n, end);
  }

  /** Every value is read back from every form that holds it, over exactly that many bytes. */
  lemma RoundTripIn(k: VarKind, v: int, n: nat, bits: seq<bool>, pos: nat)
    requires FitsIn(k, v, n) && At(bits, pos, BytesBits(EncodeIn(k, v, n)))
    ensures Decode(k, bits, pos) == Ok(v, pos + 8 * n)
  {
    if k.VarInt? && v == INT64_MIN {
      NegativeZero(bits, pos);
    } else {
      MaxValueFits(k, n);
      MagnitudeRoundTrip(k, Abs(v), v < 0, n, bits, pos);
      DecodeFrom(k, v, n, bits, pos, pos + 8 * n);
    }
  }

  /** The form the writer picks in particular. */
  lemma RoundTrip(k: VarKind, v: int, bits: seq<bool>, pos: nat)
    requires InRange(k, v) && At(bits, pos, Encode(k, v))
    ensures Decode(k, bits, pos) == Ok(v, pos + |Encode(k, v)|)
  {
    RoundTripIn(k, v, ByteCount(k, v), bits, pos);
  }

  // ---- the formats, in numbers ------------------------------------------

  /** The nine tables of maxima. */
  function Table(k: VarKind): seq<nat> {
    match k
    case VarInt16 => [0x3f, 0x3fff]
    case VarInt32 => [0x3f, 0x1fff, 0xf_ffff, 0xfff_ffff]
    case VarInt64 => [0x3f, 0x1fff, 0xf_ffff, 0x7ff_ffff, 0x3_ffff_ffff, 0x1ff_ffff_ffff, 0xffff_ffff_ffff, 0xff_ffff_ffff_ffff]
    case VarInt => [0x3f, 0x1fff, 0xf_ffff, 0x7ff_ffff, 0x3_ffff_ffff, 0x1ff_ffff_ffff, 0xffff_ffff_ffff, 0x7f_ffff_ffff_ffff, 0x7fff_ffff_ffff_ffff]
    case VarUInt16 => [0x7f, 0x7fff]
    case VarUInt32 => [0x7f, 0x3fff, 0x1f_ffff, 0x1fff_ffff]
    case VarUInt64 => [0x7f, 0x3fff, 0x1f_ffff, 0xfff_ffff, 0x7_ffff_ffff, 0x3ff_ffff_ffff, 0x1_ffff_ffff_ffff, 0x1ff_ffff_ffff_ffff]
    case VarUInt => [0x7f, 0x3fff, 0x1f_ffff, 0xfff_ffff, 0x7_ffff_ffff, 0x3ff_ffff_ffff, 0x1_ffff_ffff_ffff, 0xff_ffff_ffff_ffff, 0xffff_ffff_ffff_ffff]
    case VarSize => [0x7f, 0x3fff, 0x1f_ffff, 0xfff_ffff, 0x7fff_ffff]
  }

  /** Powers between the ones of words. */
  lemma PayloadPowers()
    ensures Pow2(13) == 0x2000 && Pow2(14) == 0x4000 && Pow2(15) == 0x8000 && Pow2(20) == 0x10_0000 && Pow2(21) == 0x20_0000
    ensures Pow2(27) == 0x800_0000 && Pow2(28) == 0x1000_0000 && Pow2(29) == 0x2000_0000
    ensures Pow2(34) == 0x4_0000_0000 && Pow2(35) == 0x8_0000_0000 && Pow2(36) == 0x10_0000_0000
    ensures Pow2(41) == 0x200_0000_0000 && Pow2(42) == 0x400_0000_0000
    ensures Pow2(48) == 0x1_0000_0000_0000 && Pow2(49) == 0x2_0000_0000_0000
    ensures Pow2(55) == 0x80_0000_0000_0000 && Pow2(56) == 0x100_0000_0000_0000 && Pow2(57) == 0x200_0000_0000_0000
  {
    SmallPowers();
    Pow2Add(6, 7); Pow2Add(7, 7); Pow2Add(7, 8); Pow2Add(7, 13); Pow2Add(7, 14);
    Pow2Add(7, 20); Pow2Add(7, 21); Pow2Add(8, 21);
    Pow2Add(7, 27); Pow2Add(7, 28); Pow2Add(8, 28);
    Pow2Add(7, 34); Pow2Add(7, 35);
    Pow2Add(7, 41); Pow2Add(7, 42);
    Pow2Add(7, 48); Pow2Add(7, 49); Pow2Add(8, 49);
  }

  /** Each number of bytes is used up to the maximum that its table gives. */
  lemma TableHolds(k: VarKind)
    ensures |Table(k)| == k.MaxBytes()
    ensures forall n :: 1 <= n <= k.MaxBytes() ==> MaxValue(k, n) == Table(k)[n - 1]
  {
    forall n | 1 <= n <= k.MaxBytes() ensures MaxValue(k, n) == Table(k)[n - 1] {
      var w := PayloadBits(k, n);
      if n <= 4 {
        if k.Signed() { SignedEntry(k, n, w); } else { UnsignedEntry(k, n, w); }
      } else {
        if k.Signed() { WideSignedEntry(k, n, w); } else { WideEntry(k, n, w); }
      }
    }
  }

  lemma SignedEntry(k: VarKind, n: nat, w: nat)
    requires k.Signed() && 1 <= n <= 4 && n <= k.MaxBytes() && w == PayloadBits(k, n)
    ensures MaxValue(k, n) == Table(k)[n - 1]
  {
    var p := ShortPower(w);
  }

  lemma WideSignedEntry(k: VarKind, n: nat, w: nat)
    requires k.Signed() && 5 <= n && n <= k.MaxBytes() && w == PayloadBits(k, n)
    ensures MaxValue(k, n) == Table(k)[n - 1]
  {
    WordPowers();
    PayloadPowers();
  }

  lemma UnsignedEntry(k: VarKind, n: nat, w: nat)
    requires !k.Signed() && 1 <= n <= 4 && n <= k.MaxBytes() && w == PayloadBits(k, n)
    ensures MaxValue(k, n) == Table(k)[n - 1]
  {
    var p := ShortPower(w);
  }

  /** The powers of up to four bytes of payload. */
  lemma ShortPower(w: nat) returns (p: nat)
    ensures p == Pow2(w)
    ensures w == 6 ==> p == 0x40
    ensures w == 7 ==> p == 0x80
    ensures w == 13 ==> p == 0x2000
    ensures w == 14 ==> p == 0x4000
    ensures w == 15 ==> p == 0x8000
    ensures w == 20 ==> p == 0x10_0000
    ensures w == 21 ==> p == 0x20_0000
    ensures w == 27 ==> p == 0x800_0000
    ensures w == 28 ==> p == 0x1000_0000
    ensures w == 29 ==> p == 0x2000_0000
  {
    SmallPowers();
    PayloadPowers();
    p := Pow2(w);
  }

  lemma WideEntry(k: VarKind, n: nat, w: nat)
    requires !k.Signed() && 5 <= n && n <= k.MaxBytes() && w == PayloadBits(k, n)
    ensures MaxValue(k, n) == Table(k)[n - 1]
  {
    WordPowers();
    PayloadPowers();
  }

  /** The values of each kind. */
  lemma RangeOf(k: VarKind, v: int)
    ensures InRange(k, v) <==>
              match k
              case VarInt16 => -16383 <= v <= 16383
              case VarInt32 => -268435455 <= v <= 268435455
              case VarInt64 => -72057594037927935 <= v <= 72057594037927935
              case VarInt => -9223372036854775808 <= v <= 9223372036854775807
              case VarUInt16 => 0 <= v <= 32767
              case VarUInt32 => 0 <= v <= 536870911
              case VarUInt64 => 0 <= v <= 144115188075855871
              case VarUInt => 0 <= v <= 18446744073709551615
              case VarSize => 0 <= v <= 2147483647
  {
    TableHolds(k);
    if InRange(k, v) {
      var n :| 1 <= n <= 9 && FitsIn(k, v, n);
      assert n <= |Table(k)|;
    }
    assert FitsIn(k, v, if k.VarInt? && v == INT64_MIN then 1 else k.MaxBytes()) ==> InRange(k, v);
  }

  /** The bytes that an in-range value is written as: the fewest whose maximum is large enough,
      most significant first. Each holds seven bits below the flag that says whether one follows;
      the first of a signed number holds six below flag and sign; and the last of the longest
      form, the 2nd, 4th, 5th, 8th or 9th, is eight bits of payload. */
  lemma WireForm(k: VarKind, v: int, n: nat, i: nat)
    requires FitsIn(k, v, n) && !(k.VarInt? && v == INT64_MIN) && i < n
    ensures var longest := match k
              case VarInt16 => 2 case VarUInt16 => 2
              case VarInt32 => 4 case VarUInt32 => 4
              case VarSize => 5
              case VarInt64 => 8 case VarUInt64 => 8
              case VarInt => 9 case VarUInt => 9;
            var signed := k.VarInt16? || k.VarInt32? || k.VarInt64? || k.VarInt?;
            var m: nat := if v < 0 then -v else v;
            var shift := 7 * (n - 1 - i) + if n == longest && i < n - 1 then 1 else 0;
            && n <= longest
            && EncodeIn(k, v, n)[i] ==
                 if i == longest - 1 then Low(m, 8)
                 else if signed && i == 0 then (if v < 0 then 128 else 0) + (if n > 1 then 64 else 0) + Low(Shr(m, shift), 6)
                 else (if i < n - 1 then 128 else 0) + Low(Shr(m, shift), 7)
  {
    SmallPowers();
  }

  /** A varsize is accumulated in 32 bits: what is left of the 36 bits of five bytes. */
  lemma VarSizeWide(v: nat, bits: seq<bool>, pos: nat)
    requires v < 0x10_0000_0000 && At(bits, pos, BytesBits(VarBytes(VarSize, v, false, 5)))
    ensures Decode(VarSize, bits, pos) == if v % 0x1_0000_0000 <= 0x7fff_ffff then Ok(v % 0x1_0000_0000, pos + 40) else Failed
  {
    PayloadPowers();
    MagnitudeRoundTrip(VarSize, v, false, 5, bits, pos);
  }

  /** In range exactly when the table of maxima has an entry that is large enough. */
  lemma InRangeByTable(k: VarKind, v: int)
    requires k.Signed() || v >= 0
    requires !(k.VarInt? && v == INT64_MIN)
    ensures InRange(k, v) <==> LeastFit(k, Abs(v), 1) <= k.MaxBytes()
    ensures InRange(k, v) ==> ByteCount(k, v) == LeastFit(k, Abs(v), 1)
  {
    var n := LeastFit(k, Abs(v), 1);
    if n <= k.MaxBytes() {
      assert FitsIn(k, v, n);
    }
    if InRange(k, v) {
      var m :| 1 <= m <= 9 && FitsIn(k, v, m);
      assert Abs(v) <= MaxValue(k, m);
    }
  }

  lemma SignOfRange(k: VarKind, v: int)
    requires InRange(k, v)
    ensures k.Signed() || v >= 0
  {}

  /** Lengths are written as varsize. */
  lemma VarSizeInRange(n: nat)
    ensures InRange(VarSize, n) <==> n <= VARSIZE_MAX
  {
    if n <= VARSIZE_MAX {
      assert FitsIn(VarSize, n, 5);
    } else if InRange(VarSize, n) {
      var m :| 1 <= m <= 9 && FitsIn(VarSize, n, m);
      VarSizeMaxima(m);
    }
  }

  lemma VarSizeMaxima(m: nat)
    requires 1 <= m <= 5
    ensures MaxValue(VarSize, m) <= VARSIZE_MAX
  {
    MaxValueFits(VarSize, m);
  }

  /** The walk through the table of maxima. */
  method WalkTable(k: VarKind, v: nat) returns (byteSize: nat)
    ensures byteSize == LeastFit(k, v, 1)
  {
    TableHolds(k);
    byteSize := 1;
    while byteSize <= |Table(k)| && v > Table(k)[byteSize - 1]
      invariant 1 <= byteSize <= k.MaxBytes() + 1
      invariant LeastFit(k, v, 1) == LeastFit(k, v, byteSize)
    {
      byteSize := byteSize + 1;
    }
  }

  /** The size calculation: an error when no entry of the table is large enough. */
  method BitSizeOf(k: VarKind, v: int) returns (ok: bool, bits: nat)
    requires k.Signed() || v >= 0
    ensures ok <==> InRange(k, v)
    ensures ok ==> bits == |Encode(k, v)|
  {
    if k.VarInt? && v == INT64_MIN {
      assert FitsIn(k, v, 1);
      return true, 8;
    }
    InRangeByTable(k, v);
    var byteSize := WalkTable(k, Abs(v));
    if byteSize > k.MaxBytes() {
      return false, 0;
    }
    return true, byteSize * 8;
  }

  lemma ByteInParts(k: VarKind, v: nat, negative: bool, n: nat, i: nat, sign: nat, more: nat, payload: nat, w: nat, shift: nat)
    requires i < n <= k.MaxBytes() && w == PayloadOf(k, n, i) && shift == ShiftOf(k, n, i)
    requires sign == (if k.Signed() && i == 0 && negative then 128 else 0) && more == (if i < n - 1 then Pow2(w) else 0)
    requires payload == Low(Shr(v, shift), w)
    ensures sign + more + payload == VarByte(k, v, negative, n, i)
  {}

  /** One byte of the writer's loop, flag by flag. */
  method BuildByte(k: VarKind, value: nat, isNegative: bool, numVarBytes: nat, i: nat) returns (b: byte)
    requires i < numVarBytes <= k.MaxBytes()
    ensures b == VarByte(k, value, isNegative, numVarBytes, i)
  {
    var hasMaxByteRange := numVarBytes == k.MaxBytes();
    var hasNextByte := i < numVarBytes - 1;
    var sign, more, numBits := 0, 0, 8;
    if k.Signed() && i == 0 {
      if isNegative { sign := 0x80; }
      numBits := numBits - 1;
    }
    if hasNextByte {
      numBits := numBits - 1;
      more := Pow2(numBits);
    } else if !hasMaxByteRange {
      numBits := numBits - 1;
    }
    var shiftBits := (numVarBytes - (i + 1)) * 7 + (if hasMaxByteRange && hasNextByte then 1 else 0);
    assert numBits == PayloadOf(k, numVarBytes, i) && shiftBits == ShiftOf(k, numVarBytes, i);
    var payload := Low(Shr(value, shiftBits), numBits);
    ByteInParts(k, value, isNegative, numVarBytes, i, sign, more, payload, numBits, shiftBits);
    b := sign + more + payload;
  }
}
