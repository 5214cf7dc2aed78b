/** Fields as bit strings: what each writer call emits, what the matching reader call makes
    of it, and the round trip over any sequence of them. */
module Fields {
  import opened Bits
  import opened Wire
  import opened VarNum

  /** Bits held in whole bytes; only the first `bitSize` count. */
  datatype BitBufferData = BitBuffer(bytes: seq<byte>, bitSize: nat) {
    predicate Valid() { (bitSize + 7) / 8 <= |bytes| }

    function ByteSize(): nat { (bitSize + 7) / 8 }

    function MaskedLastByte(): byte
      requires Valid() && bitSize > 0
    {
      var rounded := bitSize / 8;
      var lastBits := bitSize - 8 * rounded;
      if lastBits == 0 then bytes[rounded - 1]
      else
        Decompose(bytes[rounded], 8 - lastBits);
        bytes[rounded] - Low(bytes[rounded], 8 - lastBits)
    }

    /** `operator==`: sizes, whole bytes, and the last byte with its unused bits masked. */
    predicate Equals(other: BitBufferData)
      requires Valid() && other.Valid()
    {
      && bitSize == other.bitSize
      && (ByteSize() > 0 ==>
            && bytes[..ByteSize() - 1] == other.bytes[..ByteSize() - 1]
            && MaskedLastByte() == other.MaskedLastByte())
    }

    function Bits(): (s: seq<bool>)
      requires Valid()
      ensures |s| == bitSize
    {
      BytesBits(bytes)[..bitSize]
    }
  }

  /** The constructors refuse too few bytes. */
  type BitBuffer = b: BitBufferData | b.Valid() witness BitBuffer([], 0)

  /** Masking keeps the leading bits and clears the rest. */
  lemma MaskedBits(b: byte, keep: nat)
    requires 1 <= keep <= 8
    ensures Low(b, 8 - keep) <= b
    ensures ToBits(8, b - Low(b, 8 - keep)) == ToBits(8, b)[..keep] + ToBits(8 - keep, 0)
  {
    var s := 8 - keep;
    Decompose(b, s);
    ToBitsSplit(keep, s, b);
    ToBitsJoin(keep, s, Shr(b, s), 0);
  }

  lemma MaskedDecides(b: byte, c: byte, keep: nat)
    requires 1 <= keep <= 8
    ensures Low(b, 8 - keep) <= b && Low(c, 8 - keep) <= c
    ensures b - Low(b, 8 - keep) == c - Low(c, 8 - keep) <==> ToBits(8, b)[..keep] == ToBits(8, c)[..keep]
  {
    MaskedBits(b, keep);
    MaskedBits(c, keep);
    if ToBits(8, b)[..keep] == ToBits(8, c)[..keep] {
      ByteFromBits(b - Low(b, 8 - keep));
      ByteFromBits(c - Low(c, 8 - keep));
    }
    assert ToBits(8, b)[..keep] == (ToBits(8, b)[..keep] + ToBits(8 - keep, 0))[..keep];
    assert ToBits(8, c)[..keep] == (ToBits(8, c)[..keep] + ToBits(8 - keep, 0))[..keep];
  }

  lemma MaskedIs(a: BitBuffer, n: nat, keep: nat)
    requires a.bitSize == 8 * n + keep && 1 <= keep <= 8
    ensures n < |a.bytes| && Low(a.bytes[n], 8 - keep) <= a.bytes[n] && a.MaskedLastByte() == a.bytes[n] - Low(a.bytes[n], 8 - keep)
  {
    Decompose(a.bytes[n], 8 - keep);
  }

  /** Concatenations of parts of the same lengths are equal exactly if the parts are. */
  lemma PartsEqual(x: seq<bool>, y: seq<bool>, s: seq<bool>, t: seq<bool>)
    requires |x| == |s|
    ensures x + y == s + t <==> x == s && y == t
  {
    if x + y == s + t {
      assert x == (x + y)[..|x|] == (s + t)[..|s|] == s;
      assert y == (x + y)[|x|..] == (s + t)[|s|..] == t;
    }
  }

  /** Two bit buffers are equal exactly when they hold the same bits. */
  lemma EqualsIsSameBits(a: BitBuffer, b: BitBuffer)
    ensures a.Equals(b) <==> a.Bits() == b.Bits()
  {
    if a.bitSize == b.bitSize && a.bitSize > 0 {
      var n := a.ByteSize() - 1;
      var keep := a.bitSize - 8 * n;
      BitsByParts(a);
      BitsByParts(b);
      MaskedDecides(a.bytes[n], b.bytes[n], keep);
      MaskedIs(a, n, keep);
      MaskedIs(b, n, keep);
      PartsEqual(BytesBits(a.bytes[..n]), ToBits(8, a.bytes[n])[..keep], BytesBits(b.bytes[..n]), ToBits(8, b.bytes[n])[..keep]);
      if BytesBits(a.bytes[..n]) == BytesBits(b.bytes[..n]) { BytesBitsInjective(a.bytes[..n], b.bytes[..n]); }
    }
  }

  lemma BitsByParts(a: BitBuffer)
    requires a.bitSize > 0
    ensures var n := a.ByteSize() - 1; var keep := a.bitSize - 8 * n;
            1 <= keep <= 8 && a.Bits() == BytesBits(a.bytes[..n]) + ToBits(8, a.bytes[n])[..keep]
  {
    var n := a.ByteSize() - 1;
    BytesBitsSlice(a.bytes, 0, n);
    BytesBitsByte(a.bytes, n);
    assert BytesBits(a.bytes)[..a.bitSize] == BytesBits(a.bytes)[..8 * n] + BytesBits(a.bytes)[8 * n..8 * n + 8][..a.bitSize - 8 * n];
  }

  /** As the streams see it: whole bytes, then the top bits of the last one. */
  lemma OnlyWholeBytes(b: BitBuffer)
    requires b.bitSize % 8 == 0
    ensures b.Bits() == BytesBits(b.bytes[..b.bitSize / 8])
  {
    BytesBitsSlice(b.bytes, 0, b.bitSize / 8);
  }

  lemma TopBits(last: byte, rest: nat)
    requires 1 <= rest < 8
    ensures ToBits(8, last)[..rest] == ToBits(rest, Shr(last, 8 - rest))
  {
    ToBitsSplit(rest, 8 - rest, last);
  }

  lemma BytesThenTopBits(b: BitBuffer, n: nat, rest: nat)
    requires 1 <= rest < 8 && b.bitSize == 8 * n + rest
    ensures b.Bits() == BytesBits(b.bytes[..n]) + ToBits(rest, Shr(b.bytes[n], 8 - rest))
  {
    BitsByParts(b);
    TopBits(b.bytes[n], rest);
  }

  // ---- one field --------------------------------------------------------

  datatype FieldData =
    | Unsigned(bits: nat, u: nat)
    | Signed(bits: nat, i: int)
    | Flag(b: bool)
    | Var(kind: VarKind, v: int)
    | Bytes(data: seq<byte>)
    | BitField(buf: BitBuffer)

  /** The type of a field: what a reader has to know beforehand. */
  datatype Shape =
    | AsUnsigned(bits: nat) | AsSigned(bits: nat) | AsFlag | AsVar(kind: VarKind) | AsBytes | AsBitField

  function ShapeOf(f: FieldData): Shape {
    match f
    case Unsigned(n, _) => AsUnsigned(n)
    case Signed(n, _) => AsSigned(n)
    case Flag(_) => AsFlag
    case Var(k, _) => AsVar(k)
    case Bytes(_) => AsBytes
    case BitField(_) => AsBitField
  }

  /** What the writer accepts. */
  predicate Writable(f: FieldData) {
    match f
    case Unsigned(n, u) => 1 <= n <= 64 && u < Pow2(n)
    case Signed(n, i) => 1 <= n <= 64 && 0 <= i + Pow2(n - 1) && i < Pow2(n - 1)
    case Flag(_) => true
    case Var(k, v) => InRange(k, v)
    case Bytes(d) => |d| <= VARSIZE_MAX
    case BitField(b) => b.bitSize <= VARSIZE_MAX
  }

  type Field = f: FieldData | Writable(f) witness Flag(false)

  function LengthCode(n: nat): (s: seq<bool>)
    requires n <= VARSIZE_MAX
  {
    VarSizeInRange(n);
    Encode(VarSize, n)
  }

  function Code(f: Field): seq<bool> {
    match f
    case Unsigned(n, u) => ToBits(n, u)
    case Signed(n, i) => ToBits(n, Encode2s(n, i))
    case Flag(b) => [b]
    case Var(k, v) => Encode(k, v)
    case Bytes(d) => LengthCode(|d|) + BytesBits(d)
    case BitField(b) => LengthCode(b.bitSize) + b.Bits()
  }

  /** `code` is `v` in `n` bits, the most significant first, a negative number in two's
      complement. */
  predicate IsNumber(code: seq<bool>, n: nat, v: int) {
    && |code| == n
    && var w := if v < 0 then v + Pow2(n) else v;
       forall i :: 0 <= i < n ==> code[i] == (w / Pow2(n - 1 - i) % 2 == 1)
  }

  lemma UnsignedIsNumber(n: nat, v: nat)
    ensures IsNumber(ToBits(n, v), n, v)
  {
    var code := ToBits(n, v);
    forall i | 0 <= i < n ensures code[i] == (v / Pow2(n - 1 - i) % 2 == 1) { BitAt(n, v, i, n - 1 - i); }
  }

  lemma SignedIsNumber(n: nat, v: int, code: seq<bool>)
    requires n > 0 && FitsSigned(n, v) && code == ToBits(n, Encode2s(n, v))
    ensures IsNumber(code, n, v)
  {
    var w := if v < 0 then v + Pow2(n) else v;
    DivModUnique(v, Pow2(n), if v < 0 then -1 else 0, w);
    UnsignedIsNumber(n, w);
  }

  /** What a field is on the wire: a number in its bits; a flag in one; the bytes of a
      variable-length number; and for bytes and bits how many there are, as a varsize, and then
      these. */
  lemma FieldForm(f: Field)
    ensures match f
            case Unsigned(n, u) => IsNumber(Code(f), n, u)
            case Signed(n, v) => IsNumber(Code(f), n, v)
            case Flag(b) => Code(f) == [b]
            case Var(k, v) => Code(f) == BytesBits(if k.VarInt? && v == INT64_MIN then [0x80] else EncodeIn(k, v, ByteCount(k, v)))
            case Bytes(d) => (VarSizeInRange(|d|); Code(f) == Encode(VarSize, |d|) + BytesBits(d))
            case BitField(b) => (VarSizeInRange(b.bitSize); Code(f) == Encode(VarSize, b.bitSize) + BytesBits(b.bytes)[..b.bitSize])
  {
    match f
    case Unsigned(n, u) => UnsignedIsNumber(n, u);
    case Signed(n, v) => SignedIsNumber(n, v, Code(f));
    case Bytes(d) => VarSizeInRange(|d|);
    case BitField(b) => VarSizeInRange(b.bitSize);
    case _ =>
  }

  /** `n` bytes, one after the other. */
  function ReadBytes(bits: seq<bool>, pos: nat, n: nat): (r: Read<seq<byte>>)
    ensures r.Ok? ==> |r.value| == n
    decreases n
  {
    if n == 0 then Ok([], pos)
    else
      var (first, p) :- ReadUnsigned(bits, pos, 8);
      SmallPowers();
      var (rest, q) :- ReadBytes(bits, p, n - 1);
      Ok([first] + rest, q)
  }

  /** Whole bytes, and the remaining bits at the top of a last one. */
  function WithRest(whole: seq<byte>, n: nat, rest: nat): (b: BitBuffer)
    requires |whole| == n / 8 && n % 8 != 0 && rest < Pow2(n % 8)
    ensures b.bitSize == n
  {
    Leftover(rest, n % 8);
    BitBuffer(whole + [Shl(rest, 8 - n % 8)], n)
  }

  function ReadBitBuffer(bits: seq<bool>, pos: nat, n: nat): (r: Read<BitBuffer>)
    ensures r.Ok? ==> r.value.bitSize == n
  {
    var (whole, p) :- ReadBytes(bits, pos, n / 8);
    if n % 8 == 0 then Ok(BitBuffer(whole, n), p)
    else
      var (rest, q) :- ReadUnsigned(bits, p, n % 8);
      Ok(WithRest(whole, n, rest), q)
  }

  lemma Leftover(rest: nat, k: nat)
    requires 1 <= k < 8 && rest < Pow2(k)
    ensures Shl(rest, 8 - k) < 256 && ToBits(8, Shl(rest, 8 - k))[..k] == ToBits(k, rest)
  {
    SmallPowers();
    JoinBound(rest, 0, k, 8 - k);
    ToBitsJoin(k, 8 - k, rest, 0);
  }

  function ReadField(s: Shape, bits: seq<bool>, pos: nat): Read<FieldData> {
    match s
    case AsUnsigned(n) =>
      if n == 0 || n > 64 then Failed
      else
        var (u, p) :- ReadUnsigned(bits, pos, n);
        Ok(Unsigned(n, u), p)
    case AsSigned(n) =>
      if n == 0 || n > 64 then Failed
      else
        var (i, p) :- ReadSigned(bits, pos, n);
        Ok(Signed(n, i), p)
    case AsFlag =>
      var (u, p) :- ReadUnsigned(bits, pos, 1);
      Ok(Flag(u != 0), p)
    case AsVar(k) =>
      var (v, p) :- Decode(k, bits, pos);
      Ok(Var(k, v), p)
    case AsBytes =>
      var (n, p) :- Decode(VarSize, bits, pos);
      var (d, q) :- ReadBytes(bits, p, n);
      Ok(Bytes(d), q)
    case AsBitField =>
      var (n, p) :- Decode(VarSize, bits, pos);
      var (b, q) :- ReadBitBuffer(bits, p, n);
      Ok(BitField(b), q)
  }

  /** Equal, with bit buffers compared as the code compares them. */
  predicate Same(f: FieldData, g: FieldData) {
    if f.BitField? then g.BitField? && f.buf.Equals(g.buf) else f == g
  }

  lemma {:induction false} BytesBack(bits: seq<bool>, pos: nat, d: seq<byte>)
    requires At(bits, pos, BytesBits(d))
    ensures ReadBytes(bits, pos, |d|) == Ok(d, pos + 8 * |d|)
    decreases |d|
  {
    if d != [] {
      ReadBackByte(bits, pos, d, 0);
      assert d == [d[0]] + d[1..];
      BytesBitsConcat([d[0]], d[1..]);
      AtSplit(bits, pos, BytesBits([d[0]]), BytesBits(d[1..]));
      BytesBack(bits, pos + 8, d[1..]);
    }
  }

  /** A buffer with the same whole bytes and the remaining bits on top of the last one. */
  lemma SameTail(b: BitBuffer, whole: seq<byte>, tail: seq<bool>, last: byte)
    requires |whole| == b.bitSize / 8 && 0 < |tail| == b.bitSize % 8
    requires b.Bits() == BytesBits(whole) + tail && ToBits(8, last)[..|tail|] == tail
    ensures b.Equals(BitBuffer(whole + [last], b.bitSize))
  {
    var got := BitBuffer(whole + [last], b.bitSize);
    BytesBitsConcat(whole, [last]);
    BytesBitsOne(last);
    assert got.Bits() == BytesBits(whole) + ToBits(8, last)[..|tail|];
    EqualsIsSameBits(b, got);
  }

  lemma TailBack(bits: seq<bool>, pos: nat, tail: seq<bool>) returns (rest: nat, last: byte)
    requires 1 <= |tail| < 8 && At(bits, pos, tail)
    ensures ReadUnsigned(bits, pos, |tail|) == Ok(rest, pos + |tail|)
    ensures last == Shl(rest, 8 - |tail|) && ToBits(8, last)[..|tail|] == tail
  {
    rest := FromBits(tail);
    FromBitsBound(tail);
    ToFrom(tail);
    Leftover(rest, |tail|);
    last := Shl(rest, 8 - |tail|);
  }

  lemma WholeThenRest(bits: seq<bool>, pos: nat, n: nat, whole: seq<byte>, p: nat, rest: nat, last: byte, q: nat)
    requires n % 8 != 0 && ReadBytes(bits, pos, n / 8) == Ok(whole, p)
    requires ReadUnsigned(bits, p, n % 8) == Ok(rest, q) && last == Shl(rest, 8 - n % 8)
    ensures ReadBitBuffer(bits, pos, n) == Ok(BitBuffer(whole + [last], n), q)
  {}

  lemma WholeAndTail(b: BitBuffer) returns (whole: seq<byte>, tail: seq<bool>)
    ensures |whole| == b.bitSize / 8 && |tail| == b.bitSize % 8 && b.Bits() == BytesBits(whole) + tail
  {
    var n := b.bitSize / 8;
    whole, tail := b.bytes[..n], b.Bits()[8 * n..];
    BytesBitsSlice(b.bytes, 0, n);
  }

  lemma WholeBack(bits: seq<bool>, pos: nat, b: BitBuffer, whole: seq<byte>)
    requires b.bitSize == 8 * |whole| && b.Bits() == BytesBits(whole) && ReadBytes(bits, pos, |whole|) == Ok(whole, pos + b.bitSize)
    ensures ReadBitBuffer(bits, pos, b.bitSize) == Ok(BitBuffer(whole, b.bitSize), pos + b.bitSize)
    ensures b.Equals(BitBuffer(whole, b.bitSize))
  {
    EqualsIsSameBits(b, BitBuffer(whole, b.bitSize));
  }

  lemma RestBack(bits: seq<bool>, pos: nat, b: BitBuffer, whole: seq<byte>, tail: seq<bool>, p: nat) returns (g: BitBuffer)
    requires |whole| == b.bitSize / 8 && 0 < |tail| == b.bitSize % 8 && b.Bits() == BytesBits(whole) + tail
    requires ReadBytes(bits, pos, |whole|) == Ok(whole, p) && At(bits, p, tail)
    ensures ReadBitBuffer(bits, pos, b.bitSize) == Ok(g, p + |tail|) && b.Equals(g)
  {
    var rest, last := TailBack(bits, p, tail);
    SameTail(b, whole, tail, last);
    WholeThenRest(bits, pos, b.bitSize, whole, p, rest, last, p + |tail|);
    g := BitBuffer(whole + [last], b.bitSize);
  }

  lemma BitBufferBack(bits: seq<bool>, pos: nat, b: BitBuffer) returns (g: BitBuffer)
    requires At(bits, pos, b.Bits())
    ensures ReadBitBuffer(bits, pos, b.bitSize) == Ok(g, pos + b.bitSize) && b.Equals(g)
  {
    var whole, tail := WholeAndTail(b);
    var p := pos + 8 * |whole|;
    AtSplit(bits, pos, BytesBits(whole), tail);
    BytesBack(bits, pos, whole);
    if tail == [] {
      assert b.Bits() == BytesBits(whole);
      WholeBack(bits, pos, b, whole);
      g := BitBuffer(whole, b.bitSize);
    } else {
      g := RestBack(bits, pos, b, whole, tail, p);
    }
  }

  /** A length prefix, and where the counted part starts. */
  lemma LengthBack(n: nat, bits: seq<bool>, pos: nat, rest: seq<bool>) returns (p: nat)
    requires n <= VARSIZE_MAX && At(bits, pos, LengthCode(n) + rest)
    ensures p == pos + |LengthCode(n)| && Decode(VarSize, bits, pos) == Ok(n, p) && At(bits, p, rest)
  {
    p := pos + |LengthCode(n)|;
    AtSplit(bits, pos, LengthCode(n), rest);
    VarSizeInRange(n);
    RoundTrip(VarSize, n, bits, pos);
  }

  /** Reading `f` back at `pos` gives an equal field and ends behind its bits. */
  ghost predicate ReadsBack(f: Field, bits: seq<bool>, pos: nat) {
    var r := ReadField(ShapeOf(f), bits, pos);
    r.Ok? && r.pos == pos + |Code(f)| && Same(f, r.value)
  }

  lemma FlagRoundTrip(b: bool, bits: seq<bool>, pos: nat)
    requires At(bits, pos, [b])
    ensures ReadsBack(Flag(b), bits, pos)
  {
    SmallPowers();
    assert ToBits(1, if b then 1 else 0) == [b];
    ReadBackUnsigned(bits, pos, 1, if b then 1 else 0);
  }

  lemma ReadsBackFrom(f: Field, g: FieldData, bits: seq<bool>, pos: nat, q: nat)
    requires Same(f, g)
    requires ReadField(ShapeOf(f), bits, pos) == Ok(g, q) && q == pos + |Code(f)|
    ensures ReadsBack(f, bits, pos)
  {}

  lemma BitsReadBack(b: BitBuffer, g: BitBuffer, bits: seq<bool>, pos: nat, q: nat)
    requires b.bitSize <= VARSIZE_MAX && q == pos + |LengthCode(b.bitSize)| + b.bitSize
    requires ReadField(AsBitField, bits, pos) == Ok(BitField(g), q)
    requires b.Equals(g)
    ensures ReadsBack(BitField(b), bits, pos)
  {}

  lemma LengthThenBytes(d: seq<byte>, bits: seq<bool>, pos: nat, p: nat, q: nat)
    requires Decode(VarSize, bits, pos) == Ok(|d|, p)
    requires ReadBytes(bits, p, |d|) == Ok(d, q)
    ensures ReadField(AsBytes, bits, pos) == Ok(Bytes(d), q)
  {}

  lemma LengthThenBits(b: BitBuffer, n: nat, bits: seq<bool>, pos: nat, p: nat, q: nat)
    requires Decode(VarSize, bits, pos) == Ok(n, p)
    requires ReadBitBuffer(bits, p, n) == Ok(b, q)
    ensures ReadField(AsBitField, bits, pos) == Ok(BitField(b), q)
  {}

  lemma BytesRoundTrip(d: seq<byte>, bits: seq<bool>, pos: nat, p: nat)
    requires Decode(VarSize, bits, pos) == Ok(|d|, p) && At(bits, p, BytesBits(d))
    ensures ReadField(AsBytes, bits, pos) == Ok(Bytes(d), p + 8 * |d|)
  {
    BytesBack(bits, p, d);
    LengthThenBytes(d, bits, pos, p, p + 8 * |d|);
  }

  lemma BitFieldRoundTrip(b: BitBuffer, bits: seq<bool>, pos: nat, p: nat) returns (g: BitBuffer)
    requires Decode(VarSize, bits, pos) == Ok(b.bitSize, p) && At(bits, p, b.Bits())
    ensures ReadField(AsBitField, bits, pos) == Ok(BitField(g), p + b.bitSize) && b.Equals(g)
  {
    g := BitBufferBack(bits, p, b);
    LengthThenBits(g, b.bitSize, bits, pos, p, p + b.bitSize);
  }

  lemma NumberRoundTrip(f: Field, bits: seq<bool>, pos: nat)
    requires At(bits, pos, Code(f)) && (f.Unsigned? || f.Signed? || f.Var?)
    ensures ReadsBack(f, bits, pos)
  {
    match f
    case Unsigned(n, u) => ReadBackUnsigned(bits, pos, n, u);
    case Signed(n, i) => ReadBackSigned(bits, pos, n, i);
    case Var(k, v) => RoundTrip(k, v, bits, pos);
  }

  lemma CountedBytesRoundTrip(d: seq<byte>, bits: seq<bool>, pos: nat)
    requires |d| <= VARSIZE_MAX && At(bits, pos, Code(Bytes(d)))
    ensures ReadsBack(Bytes(d), bits, pos)
  {
    var p := LengthBack(|d|, bits, pos, BytesBits(d));
    BytesRoundTrip(d, bits, pos, p);
    ReadsBackFrom(Bytes(d), Bytes(d), bits, pos, p + 8 * |d|);
  }

  lemma CountedBitsRoundTrip(b: BitBuffer, bits: seq<bool>, pos: nat)
    requires b.bitSize <= VARSIZE_MAX && At(bits, pos, LengthCode(b.bitSize) + b.Bits())
    ensures ReadsBack(BitField(b), bits, pos)
  {
    var p := LengthBack(b.bitSize, bits, pos, b.Bits());
    var g := BitFieldRoundTrip(b, bits, pos, p);
    BitsReadBack(b, g, bits, pos, p + b.bitSize);
  }

  /** Every field is read back from where it was written, over exactly its own bits. */
  lemma FieldRoundTrip(f: Field, bits: seq<bool>, pos: nat)
    requires At(bits, pos, Code(f))
    ensures ReadsBack(f, bits, pos)
  {
    match f
    case Flag(b) => FlagRoundTrip(b, bits, pos);
    case Bytes(d) => CountedBytesRoundTrip(d, bits, pos);
    case BitField(b) => CountedBitsRoundTrip(b, bits, pos);
    case _ => NumberRoundTrip(f, bits, pos);
  }

  // ---- any sequence of fields -------------------------------------------

  function Codes(fs: seq<Field>): (s: seq<seq<bool>>)
    ensures |s| == |fs|
  {
    seq(|fs|, i requires 0 <= i < |fs| => Code(fs[i]))
  }

  function Shapes(fs: seq<Field>): (s: seq<Shape>)
    ensures |s| == |fs|
  {
    seq(|fs|, i requires 0 <= i < |fs| => ShapeOf(fs[i]))
  }

  function ReadAll(shapes: seq<Shape>, bits: seq<bool>, pos: nat): (r: Read<seq<FieldData>>)
    ensures r.Ok? ==> |r.value| == |shapes|
  {
    ReadEach(ReadField, shapes, bits, pos)
  }

  predicate SameAll(fs: seq<Field>, gs: seq<FieldData>) {
    |fs| == |gs| && forall i :: 0 <= i < |fs| ==> Same(fs[i], gs[i])
  }

  lemma ReadsField(f: Field, bits: seq<bool>)
    ensures ReadsItem<Shape, FieldData, FieldData>(ReadField, Same, ShapeOf(f), Code(f), f, bits)
  {
    var shape, code := ShapeOf(f), Code(f);
    forall p: nat | At(bits, p, code)
      ensures var r := ReadField(shape, bits, p); r.Ok? && r.pos == p + |code| && Same(f, r.value)
    {
      FieldRoundTrip(f, bits, p);
    }
  }

  /** Any mix of fields, written anywhere, reads back equal and ends where the writing ended. */
  lemma MixedRoundTrip(fs: seq<Field>, bits: seq<bool>, pos: nat)
    requires At(bits, pos, Concat(Codes(fs)))
    ensures var r := ReadAll(Shapes(fs), bits, pos);
            r.Ok? && r.pos == pos + |Concat(Codes(fs))| && SameAll(fs, r.value)
  {
    var shapes, codes := Shapes(fs), Codes(fs);
    forall i | 0 <= i < |fs| ensures ReadsItem<Shape, FieldData, FieldData>(ReadField, Same, shapes[i], codes[i], fs[i], bits) {
      ReadsField(fs[i], bits);
    }
    EachBack<Shape, FieldData, FieldData>(ReadField, Same, shapes, codes, fs, bits, pos);
  }
}
