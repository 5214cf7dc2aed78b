/** Delta packing: an array is written either plainly or as a first element and signed
    differences of a common width. */
module Delta {
  import opened Bits
  import opened Wire
  import VarNum
  import opened Fields
  import opened BitWriter
  import opened BitReader

  const MAX_BIT_NUMBER_BITS: nat := 6
  const MAX_BIT_NUMBER_LIMIT: nat := 62

  // ---- elements ---------------------------------------------------------

  /** The widths of C++ integers. */
  datatype IntWidth = W8 | W16 | W32 | W64
  {
    function Bits(): nat { match this case W8 => 8 case W16 => 16 case W32 => 32 case W64 => 64 }
    function Modulus(): nat { match this case W8 => U8 case W16 => 0x1_0000 case W32 => U32 case W64 => U64 }
  }

  /** Packable types: booleans, integers of a fixed or dynamic number of bits held in a C++ type
      of that width or more, variable-length integers. */
  datatype ElemType = BoolElem | IntElem(bits: nat, width: IntWidth, signed: bool) | VarElem(kind: VarNum.VarKind)
  {
    predicate Signed() {
      match this
      case BoolElem => false
      case IntElem(_, _, s) => s
      case VarElem(k) => k.Signed()
    }

    /** Two to the width of the C++ type that holds a value. */
    function Modulus(): nat {
      match this
      case BoolElem => 2
      case IntElem(_, w, _) => w.Modulus()
      case VarElem(k) =>
        match k {
          case VarInt16 => 0x1_0000
          case VarUInt16 => 0x1_0000
          case VarInt32 => U32
          case VarUInt32 => U32
          case VarSize => U32
          case _ => U64
        }
    }
  }

  predicate InElem(t: ElemType, x: int) {
    match t
    case BoolElem => x == 0 || x == 1
    case IntElem(n, w, s) => 1 <= n <= w.Bits() && if s then FitsIn2s(n, x) else 0 <= x < Pow2(n)
    case VarElem(k) => VarNum.InRange(k, x)
  }

  predicate FitsIn2s(n: nat, x: int)
    requires n > 0
  {
    0 <= x + Pow2(n - 1) && x < Pow2(n - 1)
  }

  function FieldOf(t: ElemType, x: int): Field
    requires InElem(t, x)
  {
    match t
    case BoolElem => Flag(x != 0)
    case IntElem(n, _, s) => if s then Signed(n, x) else Unsigned(n, x)
    case VarElem(k) => Var(k, x)
  }

  function ShapeFor(t: ElemType): Shape {
    match t
    case BoolElem => AsFlag
    case IntElem(n, _, s) => if s then AsSigned(n) else AsUnsigned(n)
    case VarElem(k) => AsVar(k)
  }

  function ValueOf(f: FieldData): int {
    match f
    case Unsigned(_, u) => u
    case Signed(_, i) => i
    case Flag(b) => if b then 1 else 0
    case Var(_, v) => v
    case _ => 0
  }

  function ElemCode(t: ElemType, x: int): seq<bool>
    requires InElem(t, x)
  {
    Code(FieldOf(t, x))
  }

  function ReadElem(t: ElemType, bits: seq<bool>, pos: nat): Read<int> {
    var (f, p) :- ReadField(ShapeFor(t), bits, pos);
    Ok(ValueOf(f), p)
  }

  lemma ElemBack(t: ElemType, x: int, bits: seq<bool>, pos: nat)
    requires InElem(t, x) && At(bits, pos, ElemCode(t, x))
    ensures ReadElem(t, bits, pos) == Ok(x, pos + |ElemCode(t, x)|)
  {
    FieldRoundTrip(FieldOf(t, x), bits, pos);
  }

  // ---- 64-bit words -----------------------------------------------------

  function Word(x: int): (w: nat)
    ensures w < U64
  {
    x % U64
  }

  /** `static_cast` of a word to the element's type. */
  function Cast(t: ElemType, w: nat): int {
    if t.BoolElem? then (if w == 0 then 0 else 1) else Narrow(t.Modulus(), t.Signed(), w)
  }

  function Narrow(modulus: nat, signed: bool, w: nat): int
    requires modulus > 0
  {
    var m := w % modulus;
    if signed && 2 * m >= modulus then m - modulus else m
  }

  lemma NarrowBack(modulus: nat, signed: bool, x: int)
    requires modulus == U8 || modulus == 0x1_0000 || modulus == U32 || modulus == U64
    requires if signed then 0 <= 2 * x + modulus && 2 * x < modulus else 0 <= x < modulus
    ensures Narrow(modulus, signed, Word(x)) == x
  {
    var q, r, less := x / U64, if x < 0 then x + modulus else x, if x < 0 then 1 else 0;
    if modulus == U8 {
      DivModUnique(Word(x), U8, -q * 0x100_0000_0000_0000 - less, r);
    } else if modulus == 0x1_0000 {
      DivModUnique(Word(x), 0x1_0000, -q * 0x1_0000_0000_0000 - less, r);
    } else if modulus == U32 {
      DivModUnique(Word(x), U32, -q * U32 - less, r);
    } else {
      DivModUnique(Word(x), U64, 0, r);
    }
  }

  lemma ElemInType(t: ElemType, x: int)
    requires InElem(t, x)
    ensures if t.Signed() then 0 <= 2 * x + t.Modulus() && 2 * x < t.Modulus() else 0 <= x < t.Modulus()
  {
    match t
    case BoolElem =>
    case IntElem(n, w, s) => WidthInType(n, w);
    case VarElem(k) => VarElemInType(k, x);
  }

  lemma VarElemInType(k: VarNum.VarKind, x: int)
    requires VarNum.InRange(k, x)
    ensures var m := VarElem(k).Modulus(); if k.Signed() then 0 <= 2 * x + m && 2 * x < m else 0 <= x < m
  {
    var n :| 1 <= n <= 9 && VarNum.FitsIn(k, x, n);
    VarInType(k, n);
  }

  lemma WidthInType(n: nat, w: IntWidth)
    requires 1 <= n <= w.Bits()
    ensures Pow2(n) <= w.Modulus() && 2 * Pow2(n - 1) == Pow2(n)
  {
    WordPowers();
    HalfWords();
    Pow2Monotone(n, w.Bits());
  }

  /** Bits that hold every magnitude of a kind. */
  function VarWidth(k: VarNum.VarKind): nat {
    match k
    case VarInt16 => 15
    case VarUInt16 => 16
    case VarInt32 => 31
    case VarUInt32 => 32
    case VarSize => 32
    case VarInt64 => 63
    case VarInt => 63
    case VarUInt64 => 64
    case VarUInt => 64
  }

  lemma VarWidthInType(k: VarNum.VarKind)
    ensures VarElem(k).Modulus() == if k.Signed() then 2 * Pow2(VarWidth(k)) else Pow2(VarWidth(k))
  {
    WordPowers();
    HalfWords();
  }

  lemma HalfWords()
    ensures Pow2(15) == 0x8000 && Pow2(16) == 0x1_0000
  {
    SmallPowers();
    Pow2Add(7, 8);
    Pow2Add(8, 8);
  }

  lemma PayloadInWidth(k: VarNum.VarKind, n: nat)
    requires 1 <= n <= k.MaxBytes() && !(k.VarSize? && n == 5)
    ensures VarNum.PayloadBits(k, n) <= VarWidth(k)
  {}

  lemma VarInType(k: VarNum.VarKind, n: nat)
    requires 1 <= n <= k.MaxBytes()
    ensures var m := VarElem(k).Modulus();
            if k.Signed() then 2 * VarNum.MaxValue(k, n) < m else VarNum.MaxValue(k, n) < m
    ensures k.VarInt? ==> VarElem(k).Modulus() == U64
  {
    VarWidthInType(k);
    if !(k.VarSize? && n == 5) {
      PayloadInWidth(k, n);
      Pow2Monotone(VarNum.PayloadBits(k, n), VarWidth(k));
    }
  }

  /** A value survives the way into a word and back. */
  lemma CastBack(t: ElemType, x: int)
    requires InElem(t, x)
    ensures Cast(t, Word(x)) == x
  {
    ElemInType(t, x);
    if !t.BoolElem? { NarrowBack(t.Modulus(), t.Signed(), x); }
  }

  function AbsDiff(x: int, y: int): nat { if x > y then x - y else y - x }

  function BitLength(d: nat): nat {
    if d == 0 then 0 else 1 + BitLength(d / 2)
  }

  lemma {:induction false} BitLengthBound(d: nat, m: nat)
    ensures BitLength(d) <= m <==> d < Pow2(m)
  {
    if m != 0 && d != 0 { BitLengthBound(d / 2, m - 1); }
  }

  /** Words of two elements and of what lies between them, whatever wraps. */
  lemma WordsApart(x: int, y: int, d: int)
    requires d == y - x
    ensures (Word(y) + U64 - Word(x)) % U64 == Word(d) && (Word(x) + Word(d)) % U64 == Word(y)
  {
    var q, p, e := x / U64, y / U64, d / U64;
    DivModUnique(Word(y) + U64 - Word(x), U64, e - (p - q) + 1, Word(d));
    DivModUnique(Word(x) + Word(d), U64, p - q - e, Word(y));
  }

  /** The unsigned subtraction of two elements, read as signed, is their difference. */
  lemma DeltaIsDifference(x: int, y: int)
    requires AbsDiff(x, y) < 0x4000_0000_0000_0000
    ensures AsInt64((Word(y) + U64 - Word(x)) % U64) == y - x
    ensures (Word(x) + Word(y - x)) % U64 == Word(y)
  {
    WordsApart(x, y, y - x);
    DivModUnique(y - x, U64, if y >= x then 0 else -1, if y >= x then y - x else y - x + U64);
  }

  lemma DeltaFits(x: int, y: int, m: nat)
    requires BitLength(AbsDiff(x, y)) <= m <= MAX_BIT_NUMBER_LIMIT
    ensures FitsSigned(m + 1, y - x) && AbsDiff(x, y) < 0x4000_0000_0000_0000
  {
    BitLengthBound(AbsDiff(x, y), m);
    WordPowers();
    Pow2Monotone(m, 62);
  }

  // ---- what is written --------------------------------------------------

  predicate AllIn(t: ElemType, xs: seq<int>) { forall i :: 0 <= i < |xs| ==> InElem(t, xs[i]) }

  /** Width of the largest difference between neighbours. */
  function MaxDelta(xs: seq<int>): nat {
    var n := |xs|;
    if n < 2 then 0
    else
      var m, w := MaxDelta(xs[..n - 1]), BitLength(AbsDiff(xs[n - 1], xs[n - 2]));
      if w > m then w else m
  }

  function TotalBits(t: ElemType, xs: seq<int>): nat
    requires AllIn(t, xs)
  {
    if xs == [] then 0 else TotalBits(t, xs[..|xs| - 1]) + |ElemCode(t, xs[|xs| - 1])|
  }

  function DeltaBits(m: nat): nat { if m > 0 then m + 1 else 0 }

  /** The product, as a sum. */
  function Times(n: nat, d: nat): nat { if n == 0 then 0 else Times(n - 1, d) + d }

  lemma {:induction false} TimesIsProduct(n: nat, d: nat)
    ensures Times(n, d) == n * d
  {
    if n != 0 { TimesIsProduct(n - 1, d); }
  }

  /** Descriptor, first element, and `others` differences. */
  function PlanSize(first: nat, others: nat, m: nat): nat {
    1 + MAX_BIT_NUMBER_BITS + first + Times(others, DeltaBits(m))
  }

  /** Plain elements, behind the bit that says so. */
  function WithFlag(total: nat): nat { 1 + total }

  /** A comparison in 32 bits. */
  predicate Below(x: nat, y: nat) { Low(x, 32) < Low(y, 32) }

  /** The comparison of sizes, in 32 bits (and 64 for the sum of the plain sizes). */
  predicate Cheaper(first: nat, others: nat, m: nat, total: nat) {
    Below(PlanSize(first, Low(others, 32), m), WithFlag(Low(total, 64)))
  }

  /** The low bits of a number are what is left when it wraps. */
  lemma LowWraps(x: nat)
    ensures Low(x, 32) == x % U32 && Low(x, 64) == x % U64
  {
    WordPowers();
    ShiftsAreDivMod(x, 32);
    ShiftsAreDivMod(x, 64);
  }

  /** How many elements there are besides the first. */
  function Others(xs: seq<int>): nat
    requires xs != []
  {
    |xs| - 1
  }

  /** The decision, in the 32-bit arithmetic it is made in. */
  predicate IsPacked(t: ElemType, xs: seq<int>)
    requires AllIn(t, xs)
  {
    && |xs| >= 2
    && MaxDelta(xs) <= MAX_BIT_NUMBER_LIMIT
    && Cheaper(|ElemCode(t, xs[0])|, Others(xs), MaxDelta(xs), TotalBits(t, xs))
  }

  function Descriptor(t: ElemType, xs: seq<int>): seq<bool>
    requires AllIn(t, xs)
  {
    if IsPacked(t, xs) then [true] + ToBits(MAX_BIT_NUMBER_BITS, MaxDelta(xs)) else [false]
  }

  function Previous(xs: seq<int>, i: nat): int
    requires 0 < i <= |xs|
  {
    xs[i - 1]
  }

  /** The bits that element `i` adds to a packed array. */
  function PackedCode(t: ElemType, xs: seq<int>, i: nat): seq<bool>
    requires AllIn(t, xs) && i < |xs|
  {
    if i == 0 then Descriptor(t, xs) + ElemCode(t, xs[0])
    else if !IsPacked(t, xs) then ElemCode(t, xs[i])
    else DeltaCode(MaxDelta(xs), Previous(xs, i), xs[i])
  }

  function DeltaCode(m: nat, previous: int, x: int): (s: seq<bool>)
    ensures |s| == DeltaBits(m)
  {
    if m == 0 then [] else ToBits(m + 1, Encode2s(m + 1, x - previous))
  }

  // ---- what is read -----------------------------------------------------

  datatype DeltaState = Fresh | Plain | Packed(maxBitNumber: nat, previousElement: nat) {
    /** The same mode, going on from element `x`. */
    function After(x: int): DeltaState { if Packed? then Packed(maxBitNumber, Word(x)) else this }
  }

  function ReadHeader(bits: seq<bool>, pos: nat): (r: Read<DeltaState>)
    ensures r.Ok? ==> r.value.Plain? || (r.value.Packed? && r.value.maxBitNumber < 64)
  {
    var (flag, p) :- ReadUnsigned(bits, pos, 1);
    if flag == 0 then Ok(Plain, p)
    else
      var (m, q) :- ReadUnsigned(bits, p, MAX_BIT_NUMBER_BITS);
      SmallPowers();
      Ok(Packed(m, 0), q)
  }

  function ReadDelta(t: ElemType, st: DeltaState, bits: seq<bool>, pos: nat): Read<(int, DeltaState)> {
    match st
    case Fresh =>
      var (mode, p) :- ReadHeader(bits, pos);
      var (x, q) :- ReadElem(t, bits, p);
      Ok((x, mode.After(x)), q)
    case Plain =>
      var (x, r) :- ReadElem(t, bits, pos);
      Ok((x, Plain), r)
    case Packed(m, previous) =>
      if m == 0 then Ok((Cast(t, previous), st), pos)
      else
        var (delta, r) :- ReadSigned(bits, pos, m + 1);
        var x := Cast(t, (previous + Word(delta)) % U64);
        Ok((x, Packed(m, Word(x))), r)
  }

  /** An element that is read as a difference to `previous`. */
  lemma DifferenceRead(t: ElemType, m: nat, n: nat, previous: nat, bits: seq<bool>, pos: nat, delta: Read<int>, x: int)
    requires m > 0 && n == m + 1 && delta == ReadSigned(bits, pos, n)
    requires delta.Ok? ==> x == Cast(t, (previous + Word(delta.value)) % U64)
    ensures ReadDelta(t, Packed(m, previous), bits, pos) == if delta.Ok? then Ok((x, Packed(m, Word(x))), delta.pos) else Failed
  {}

  /** Where the reader has to be before element `i`. */
  function StateAt(t: ElemType, xs: seq<int>, i: nat): DeltaState
    requires AllIn(t, xs) && i <= |xs|
  {
    if i == 0 then Fresh
    else if !IsPacked(t, xs) then Plain
    else Packed(MaxDelta(xs), Word(Previous(xs, i)))
  }

  lemma {:induction false} MaxDeltaBounds(xs: seq<int>, i: nat)
    requires 1 <= i < |xs|
    ensures BitLength(AbsDiff(Previous(xs, i), xs[i])) <= MaxDelta(xs)
  {
    var front := xs[..|xs| - 1];
    if i < |front| {
      MaxDeltaBounds(front, i);
      assert Previous(front, i) == Previous(xs, i) && front[i] == xs[i];
    }
  }

  lemma HeaderBack(packed: bool, m: nat, bits: seq<bool>, pos: nat)
    requires packed ==> m <= MAX_BIT_NUMBER_LIMIT && At(bits, pos, [true] + ToBits(MAX_BIT_NUMBER_BITS, m))
    requires !packed ==> At(bits, pos, [false])
    ensures ReadHeader(bits, pos) == if packed then Ok(Packed(m, 0), pos + 7) else Ok(Plain, pos + 1)
  {
    SmallPowers();
    if packed {
      AtSplit(bits, pos, [true], ToBits(MAX_BIT_NUMBER_BITS, m));
      ReadBackUnsigned(bits, pos, 1, 1);
      ReadBackUnsigned(bits, pos + 1, MAX_BIT_NUMBER_BITS, m);
    } else {
      assert bits[pos..pos + 1] == [false];
      ReadBackUnsigned(bits, pos, 1, 0);
    }
  }

  lemma ReadFirst(t: ElemType, bits: seq<bool>, pos: nat, mode: DeltaState, p: nat, x: int, q: nat)
    requires ReadHeader(bits, pos) == Ok(mode, p) && ReadElem(t, bits, p) == Ok(x, q)
    ensures ReadDelta(t, Fresh, bits, pos) == Ok((x, mode.After(x)), q)
  {}

  lemma DescriptorBack(packed: bool, m: nat, d: seq<bool>, bits: seq<bool>, pos: nat, rest: seq<bool>) returns (mode: DeltaState)
    requires d == if packed then [true] + ToBits(MAX_BIT_NUMBER_BITS, m) else [false]
    requires (packed ==> m <= MAX_BIT_NUMBER_LIMIT) && At(bits, pos, d + rest)
    ensures mode == (if packed then Packed(m, 0) else Plain) && ReadHeader(bits, pos) == Ok(mode, pos + |d|)
    ensures At(bits, pos + |d|, rest)
  {
    AtSplit(bits, pos, d, rest);
    HeaderBack(packed, m, bits, pos);
    mode := if packed then Packed(m, 0) else Plain;
  }

  lemma FirstBackFrom(t: ElemType, packed: bool, m: nat, d: seq<bool>, x: int, bits: seq<bool>, pos: nat)
    requires d == if packed then [true] + ToBits(MAX_BIT_NUMBER_BITS, m) else [false]
    requires InElem(t, x) && (packed ==> m <= MAX_BIT_NUMBER_LIMIT) && At(bits, pos, d + ElemCode(t, x))
    ensures ReadDelta(t, Fresh, bits, pos)
         == Ok((x, if packed then Packed(m, Word(x)) else Plain), pos + |d| + |ElemCode(t, x)|)
  {
    var mode := DescriptorBack(packed, m, d, bits, pos, ElemCode(t, x));
    ElemBack(t, x, bits, pos + |d|);
    ReadFirst(t, bits, pos, mode, pos + |d|, x, pos + |d| + |ElemCode(t, x)|);
  }

  lemma FirstBack(t: ElemType, xs: seq<int>, next: nat, bits: seq<bool>, pos: nat)
    requires AllIn(t, xs) && xs != [] && next == 1 && At(bits, pos, PackedCode(t, xs, 0))
    ensures ReadDelta(t, StateAt(t, xs, 0), bits, pos) == Ok((xs[0], StateAt(t, xs, next)), pos + |PackedCode(t, xs, 0)|)
  {
    FirstBackFrom(t, IsPacked(t, xs), MaxDelta(xs), Descriptor(t, xs), xs[0], bits, pos);
  }

  lemma ZeroBack(t: ElemType, x: int, bits: seq<bool>, pos: nat)
    requires InElem(t, x)
    ensures ReadDelta(t, Packed(0, Word(x)), bits, pos) == Ok((x, Packed(0, Word(x))), pos)
  {
    CastBack(t, x);
  }

  lemma ReadsOn(t: ElemType, m: nat, previous: nat, delta: int, x: int, bits: seq<bool>, pos: nat, q: nat)
    requires m > 0 && ReadSigned(bits, pos, m + 1) == Ok(delta, q)
    requires (previous + Word(delta)) % U64 == Word(x) && Cast(t, Word(x)) == x
    ensures ReadDelta(t, Packed(m, previous), bits, pos) == Ok((x, Packed(m, Word(x))), q)
  {}

  lemma DifferenceBack(t: ElemType, m: nat, previous: int, x: int, bits: seq<bool>, pos: nat)
    requires InElem(t, x) && BitLength(AbsDiff(previous, x)) <= m <= MAX_BIT_NUMBER_LIMIT
    requires At(bits, pos, DeltaCode(m, previous, x))
    ensures ReadDelta(t, Packed(m, Word(previous)), bits, pos) == Ok((x, Packed(m, Word(x))), pos + DeltaBits(m))
  {
    DeltaFits(previous, x, m);
    if m == 0 {
      assert previous == x;
      ZeroBack(t, x, bits, pos);
    } else {
      CastBack(t, x);
      WordsBack(m, previous, x, bits, pos);
      ReadsOn(t, m, Word(previous), x - previous, x, bits, pos, pos + m + 1);
    }
  }

  lemma WordsBack(m: nat, previous: int, x: int, bits: seq<bool>, pos: nat)
    requires m > 0 && FitsSigned(m + 1, x - previous) && AbsDiff(previous, x) < 0x4000_0000_0000_0000
    requires At(bits, pos, DeltaCode(m, previous, x))
    ensures ReadSigned(bits, pos, m + 1) == Ok(x - previous, pos + m + 1)
    ensures (Word(previous) + Word(x - previous)) % U64 == Word(x)
  {
    DeltaIsDifference(previous, x);
    ReadBackSigned(bits, pos, m + 1, x - previous);
  }

  lemma PreviousIs(xs: seq<int>, i: nat, next: nat)
    requires next == i + 1 <= |xs|
    ensures Previous(xs, next) == xs[i]
  {}

  /** What a difference goes from and to. */
  lemma DifferenceAt(t: ElemType, xs: seq<int>, i: nat, next: nat)
    requires AllIn(t, xs) && 0 < i && next == i + 1 <= |xs| && IsPacked(t, xs)
    ensures StateAt(t, xs, i) == Packed(MaxDelta(xs), Word(Previous(xs, i))) && StateAt(t, xs, next) == Packed(MaxDelta(xs), Word(xs[i]))
    ensures PackedCode(t, xs, i) == DeltaCode(MaxDelta(xs), Previous(xs, i), xs[i])
    ensures BitLength(AbsDiff(Previous(xs, i), xs[i])) <= MaxDelta(xs) <= MAX_BIT_NUMBER_LIMIT
  {
    PreviousIs(xs, i, next);
    MaxDeltaBounds(xs, i);
  }

  lemma PlainAt(t: ElemType, xs: seq<int>, i: nat, next: nat)
    requires AllIn(t, xs) && 0 < i && next == i + 1 <= |xs| && !IsPacked(t, xs)
    ensures StateAt(t, xs, i) == StateAt(t, xs, next) == Plain && PackedCode(t, xs, i) == ElemCode(t, xs[i])
  {}

  lemma PlainBack(t: ElemType, xs: seq<int>, i: nat, next: nat, bits: seq<bool>, pos: nat)
    requires AllIn(t, xs) && 0 < i && next == i + 1 <= |xs| && !IsPacked(t, xs) && At(bits, pos, PackedCode(t, xs, i))
    ensures ReadDelta(t, StateAt(t, xs, i), bits, pos) == Ok((xs[i], StateAt(t, xs, next)), pos + |PackedCode(t, xs, i)|)
  {
    PlainAt(t, xs, i, next);
    ElemBack(t, xs[i], bits, pos);
  }

  lemma PackedBack(t: ElemType, xs: seq<int>, i: nat, next: nat, bits: seq<bool>, pos: nat)
    requires AllIn(t, xs) && 0 < i && next == i + 1 <= |xs| && IsPacked(t, xs) && At(bits, pos, PackedCode(t, xs, i))
    ensures ReadDelta(t, StateAt(t, xs, i), bits, pos) == Ok((xs[i], StateAt(t, xs, next)), pos + |PackedCode(t, xs, i)|)
  {
    DifferenceAt(t, xs, i, next);
    DifferenceBack(t, MaxDelta(xs), Previous(xs, i), xs[i], bits, pos);
  }

  /** Reading takes every element back and goes from state to state as the writer did. */
  lemma ElementBack(t: ElemType, xs: seq<int>, i: nat, next: nat, bits: seq<bool>, pos: nat)
    requires AllIn(t, xs) && next == i + 1 <= |xs| && At(bits, pos, PackedCode(t, xs, i))
    ensures ReadDelta(t, StateAt(t, xs, i), bits, pos) == Ok((xs[i], StateAt(t, xs, next)), pos + |PackedCode(t, xs, i)|)
  {
    if i == 0 {
      FirstBack(t, xs, next, bits, pos);
    } else if !IsPacked(t, xs) {
      PlainBack(t, xs, i, next, bits, pos);
    } else {
      PackedBack(t, xs, i, next, bits, pos);
    }
  }

  // ---- packing never costs more than one bit ----------------------------

  function PackedCodes(t: ElemType, xs: seq<int>): (s: seq<seq<bool>>)
    requires AllIn(t, xs)
    ensures |s| == |xs|
  {
    seq(|xs|, i requires 0 <= i < |xs| => PackedCode(t, xs, i))
  }

  function PlainCodes(t: ElemType, xs: seq<int>): (s: seq<seq<bool>>)
    requires AllIn(t, xs)
    ensures |s| == |xs|
  {
    seq(|xs|, i requires 0 <= i < |xs| => ElemCode(t, xs[i]))
  }

  function PackedSize(t: ElemType, xs: seq<int>): nat
    requires AllIn(t, xs) && xs != []
  {
    PlanSize(|ElemCode(t, xs[0])|, Others(xs), MaxDelta(xs))
  }

  /** An array that is not packed. */
  function PlainSize(t: ElemType, xs: seq<int>): nat
    requires AllIn(t, xs)
  {
    WithFlag(TotalBits(t, xs))
  }

  lemma PlanGrows(first: nat, others: nat, more: nat, m: nat)
    requires more == others + 1
    ensures PlanSize(first, more, m) == PlanSize(first, others, m) + DeltaBits(m)
  {}

  lemma PlanStarts(first: nat, others: nat, m: nat)
    requires others == 0
    ensures PlanSize(first, others, m) == 7 + first
  {}

  lemma NextPrefix(codes: seq<seq<bool>>, k: nat, n: nat)
    requires n == k + 1 <= |codes|
    ensures |Concat(codes[..n])| == |Concat(codes[..k])| + |codes[k]|
  {
    assert codes[..n] == codes[..k] + [codes[k]];
    ConcatSnoc(codes[..k], codes[k]);
  }

  /** The bits of a first element and `k` more, all of the same width. */
  lemma {:induction false} PackedPrefix(codes: seq<seq<bool>>, first: nat, m: nat, k: nat, n: nat)
    requires n == k + 1 <= |codes| && |codes[0]| == 7 + first && forall j :: 0 < j < |codes| ==> |codes[j]| == DeltaBits(m)
    ensures |Concat(codes[..n])| == PlanSize(first, k, m)
    decreases k
  {
    NextPrefix(codes, k, n);
    if k == 0 {
      PlanStarts(first, k, m);
    } else {
      PackedPrefix(codes, first, m, k - 1, k);
      PlanGrows(first, k - 1, k, m);
    }
  }

  lemma CodeSize(t: ElemType, xs: seq<int>, k: nat)
    requires AllIn(t, xs) && k < |xs| && IsPacked(t, xs)
    ensures |PackedCodes(t, xs)[k]| == if k == 0 then 7 + |ElemCode(t, xs[0])| else DeltaBits(MaxDelta(xs))
  {}

  lemma NoWrapIff(x: nat, n: nat)
    requires n > 0
    ensures x % n <= x && (x % n == x <==> x < n)
  {
    DivModUnique(x, n, x / n, x % n);
    if x < n { DivModUnique(x, n, 0, x); }
  }

  lemma AddMultiple(x: nat, k: nat, n: nat, sum: nat)
    requires n > 0 && sum == x + k * n
    ensures sum % n == x % n
  {
    assert sum == (x / n + k) * n + x % n;
    DivModUnique(sum, n, x / n + k, x % n);
  }

  /** What is compared is 32 bits of the true sizes: wrapping earlier changes nothing. */
  lemma BelowWraps(x: nat, y: nat)
    ensures Below(x, y) <==> x % U32 < y % U32
  {
    LowWraps(x);
    LowWraps(y);
  }

  lemma CheaperInFull(others: nat, less: nat, total: nat, rest: nat, wrapped: nat, flagged: nat, plan: nat, plain: nat, first: nat, m: nat)
    requires less == Low(others, 32) && rest == Low(total, 64) && plan == PlanSize(first, others, m) && plain == 1 + total
    requires wrapped == PlanSize(first, less, m) && flagged == 1 + rest
    ensures Below(wrapped, flagged) <==> plan % U32 < plain % U32
  {
    LowWraps(others);
    LowWraps(total);
    BelowWraps(wrapped, flagged);
    PlanWraps(first, others, less, m, plan);
    TotalWraps(total, rest, flagged, plain);
  }

  lemma TotalWraps(total: nat, rest: nat, flagged: nat, plain: nat)
    requires rest == total % U64 && flagged == 1 + rest && plain == 1 + total
    ensures flagged % U32 == plain % U32
  {
    var q := total / U64;
    assert total == q * U64 + rest;
    AddMultiple(flagged, q * U32, U32, plain);
  }

  lemma PlanWraps(first: nat, others: nat, less: nat, m: nat, plan: nat)
    requires plan == PlanSize(first, others, m) && less == others % U32
    ensures PlanSize(first, less, m) % U32 == plan % U32
  {
    var d, k := DeltaBits(m), others / U32;
    TimesIsProduct(less, d);
    TimesIsProduct(others, d);
    assert others * d == less * d + (k * d) * U32;
    AddMultiple(PlanSize(first, less, m), k * d, U32, plan);
  }

  lemma CheaperIff(first: nat, others: nat, m: nat, total: nat, plan: nat, plain: nat)
    requires plan == PlanSize(first, others, m) && plain == 1 + total
    ensures Cheaper(first, others, m, total) <==> plan % U32 < plain % U32
  {
    CheaperInFull(others, Low(others, 32), total, Low(total, 64), PlanSize(first, Low(others, 32), m), WithFlag(Low(total, 64)), plan, plain, first, m);
  }

  /** The decision with its numbers named. */
  lemma DecisionIs(t: ElemType, xs: seq<int>, first: nat, others: nat, m: nat, total: nat)
    requires AllIn(t, xs) && xs != [] && others == Others(xs)
    requires first == |ElemCode(t, xs[0])| && m == MaxDelta(xs) && total == TotalBits(t, xs)
    ensures IsPacked(t, xs) <==> |xs| >= 2 && m <= MAX_BIT_NUMBER_LIMIT && Cheaper(first, others, m, total)
  {}

  lemma SizesAre(t: ElemType, xs: seq<int>) returns (first: nat, others: nat, m: nat, total: nat)
    requires AllIn(t, xs) && xs != []
    ensures others == Others(xs) && first == |ElemCode(t, xs[0])| && m == MaxDelta(xs) && total == TotalBits(t, xs)
    ensures PackedSize(t, xs) == PlanSize(first, others, m) && PlainSize(t, xs) == 1 + total
  {
    first, others, m, total := |ElemCode(t, xs[0])|, Others(xs), MaxDelta(xs), TotalBits(t, xs);
  }

  lemma DecisionInFull(t: ElemType, xs: seq<int>)
    requires AllIn(t, xs) && xs != []
    ensures IsPacked(t, xs) <==> |xs| >= 2 && MaxDelta(xs) <= MAX_BIT_NUMBER_LIMIT && PackedSize(t, xs) % U32 < PlainSize(t, xs) % U32
  {
    var first, others, m, total := SizesAre(t, xs);
    DecisionIs(t, xs, first, others, m, total);
    CheaperIff(first, others, m, total, PackedSize(t, xs), PlainSize(t, xs));
  }

  // ---- the format in numbers --------------------------------------------

  /** No two neighbours lie `bound` or more apart. */
  predicate StepsBelow(xs: seq<int>, bound: nat) {
    forall i :: 1 <= i < |xs| ==> xs[i] - xs[i - 1] < bound && xs[i - 1] - xs[i] < bound
  }

  lemma StepsFront(xs: seq<int>, bound: nat, n: nat)
    requires |xs| == n >= 2
    ensures StepsBelow(xs, bound) <==> StepsBelow(xs[..n - 1], bound) && AbsDiff(xs[n - 1], xs[n - 2]) < bound
  {}

  lemma {:induction false} MaxDeltaIff(xs: seq<int>, m: nat)
    ensures MaxDelta(xs) <= m <==> StepsBelow(xs, Pow2(m))
  {
    var n := |xs|;
    if n >= 2 {
      MaxDeltaIff(xs[..n - 1], m);
      BitLengthBound(AbsDiff(xs[n - 1], xs[n - 2]), m);
      StepsFront(xs, Pow2(m), n);
    }
  }

  /** `m` bits hold the distance of any two neighbours, and no fewer do. */
  predicate StepWidth(xs: seq<int>, m: nat) {
    StepsBelow(xs, Pow2(m)) && (m > 0 ==> !StepsBelow(xs, Pow2(m - 1)))
  }

  lemma StepWidthIs(xs: seq<int>, m: nat)
    ensures StepWidth(xs, m) <==> m == MaxDelta(xs)
  {
    MaxDeltaIff(xs, m);
    if m > 0 { MaxDeltaIff(xs, m - 1); }
  }

  lemma AllInFront(t: ElemType, xs: seq<int>, front: seq<int>)
    requires AllIn(t, xs) && front <= xs
    ensures AllIn(t, front)
  {}

  lemma PlainFront(t: ElemType, xs: seq<int>, front: seq<int>, n: nat, codes: seq<seq<bool>>)
    requires AllIn(t, xs) && AllIn(t, front) && |xs| == n + 1 && front == xs[..n] && codes == PlainCodes(t, xs)
    ensures PlainCodes(t, front) == codes[..n] && TotalBits(t, xs) == TotalBits(t, front) + |codes[n]|
  {}

  lemma {:induction false} PlainTotal(t: ElemType, xs: seq<int>, codes: seq<seq<bool>>)
    requires AllIn(t, xs) && codes == PlainCodes(t, xs)
    ensures TotalBits(t, xs) == |Concat(codes)|
    decreases |codes|
  {
    if codes != [] {
      var n := |xs| - 1;
      AllInFront(t, xs, xs[..n]);
      PlainFront(t, xs, xs[..n], n, codes);
      PlainTotal(t, xs[..n], codes[..n]);
      ConcatLast(codes, codes[..n], codes[n]);
    }
  }

  lemma ConcatLast(codes: seq<seq<bool>>, front: seq<seq<bool>>, last: seq<bool>)
    requires codes != [] && front == codes[..|codes| - 1] && last == codes[|codes| - 1]
    ensures |Concat(codes)| == |Concat(front)| + |last|
  {
    assert codes == front + [last];
    ConcatSnoc(front, last);
  }

  lemma LimitIs(xs: seq<int>)
    ensures MaxDelta(xs) <= MAX_BIT_NUMBER_LIMIT <==> StepsBelow(xs, 0x4000_0000_0000_0000)
  {
    WordPowers();
    MaxDeltaIff(xs, 62);
  }

  lemma PlanIs(t: ElemType, xs: seq<int>, m: nat, others: nat, each: nat, rest: nat)
    requires AllIn(t, xs) && |xs| == others + 1 && m == MaxDelta(xs)
    requires each == (if m > 0 then m + 1 else 0) && rest == others * each
    ensures PackedSize(t, xs) == 7 + |ElemCode(t, xs[0])| + rest
  {
    TimesIsProduct(others, each);
  }

  lemma DecisionOf(t: ElemType, xs: seq<int>, plan: nat, plain: nat)
    requires AllIn(t, xs) && xs != [] && plan == PackedSize(t, xs) && plain == PlainSize(t, xs)
    ensures IsPacked(t, xs) <==> |xs| >= 2 && StepsBelow(xs, 0x4000_0000_0000_0000) && plan % U32 < plain % U32
  {
    LimitIs(xs);
    DecisionInFull(t, xs);
  }

  /** An array is packed if no two neighbours lie 2^62 or more apart, and if in 32 bits the size
      of descriptor, first element and differences is below that of one bit and all elements. */
  lemma DecisionInNumbers(t: ElemType, xs: seq<int>, m: nat, others: nat, each: nat, rest: nat, plan: nat, plain: nat)
    requires AllIn(t, xs) && |xs| == others + 1 && StepWidth(xs, m)
    requires each == (if m > 0 then m + 1 else 0) && rest == others * each
    requires plan == 1 + 6 + |ElemCode(t, xs[0])| + rest && plain == 1 + |Concat(PlainCodes(t, xs))|
    ensures IsPacked(t, xs) <==> |xs| >= 2 && StepsBelow(xs, 0x4000_0000_0000_0000) && plan % 0x1_0000_0000 < plain % 0x1_0000_0000
  {
    StepWidthIs(xs, m);
    PlainTotal(t, xs, PlainCodes(t, xs));
    PlanIs(t, xs, m, others, each, rest);
    DecisionOf(t, xs, plan, plain);
  }

  lemma FirstCode(t: ElemType, xs: seq<int>, code: seq<bool>, first: seq<bool>)
    requires AllIn(t, xs) && xs != [] && code == PackedCode(t, xs, 0) && first == ElemCode(t, xs[0])
    ensures code == (if IsPacked(t, xs) then [true] + ToBits(6, MaxDelta(xs)) else [false]) + first
  {}

  lemma NextCode(t: ElemType, xs: seq<int>, i: nat)
    requires AllIn(t, xs) && 1 <= i < |xs|
    ensures PackedCode(t, xs, i) == if IsPacked(t, xs) then DeltaCode(MaxDelta(xs), xs[i - 1], xs[i]) else ElemCode(t, xs[i])
  {}

  /** An array that is not packed: a bit that is not set, and all elements in full. */
  lemma UnpackedForm(t: ElemType, xs: seq<int>, codes: seq<seq<bool>>, plain: seq<seq<bool>>)
    requires AllIn(t, xs) && xs != [] && !IsPacked(t, xs) && codes == PackedCodes(t, xs) && plain == PlainCodes(t, xs)
    ensures codes == [[false] + plain[0]] + plain[1..]
  {
    FirstCode(t, xs, codes[0], plain[0]);
    forall i | 1 <= i < |xs| ensures codes[i] == plain[i] { NextCode(t, xs, i); }
  }

  /** Every code behind the first is a difference of neighbours in `n` bits, or nothing if all
      differences are zero. */
  predicate AreDifferences(codes: seq<seq<bool>>, xs: seq<int>, m: nat, n: nat) {
    |codes| == |xs| && forall i :: 1 <= i < |xs| ==> if m == 0 then codes[i] == [] else IsNumber(codes[i], n, xs[i] - xs[i - 1])
  }

  /** A packed array: a set bit, the width of the differences in six bits, the first element in
      full, and then the differences with one bit for the sign. */
  lemma PackedForm(t: ElemType, xs: seq<int>, codes: seq<seq<bool>>, m: nat, n: nat, width: seq<bool>)
    requires AllIn(t, xs) && IsPacked(t, xs) && codes == PackedCodes(t, xs)
    requires StepWidth(xs, m) && n == m + 1 && IsNumber(width, 6, m)
    ensures codes[0] == [true] + width + ElemCode(t, xs[0]) && AreDifferences(codes, xs, m, n)
  {
    StepWidthIs(xs, m);
    WidthIs(m, width);
    FirstCode(t, xs, codes[0], ElemCode(t, xs[0]));
    PackedDifferences(t, xs, codes, m, n);
  }

  lemma WidthIs(m: nat, width: seq<bool>)
    requires IsNumber(width, 6, m)
    ensures width == ToBits(6, m)
  {
    UnsignedIsNumber(6, m);
    SameNumber(width, ToBits(6, m), 6, m);
  }

  lemma PackedDifferences(t: ElemType, xs: seq<int>, codes: seq<seq<bool>>, m: nat, n: nat)
    requires AllIn(t, xs) && IsPacked(t, xs) && codes == PackedCodes(t, xs) && m == MaxDelta(xs) && n == m + 1
    ensures AreDifferences(codes, xs, m, n)
  {
    forall i | 1 <= i < |xs| ensures if m == 0 then codes[i] == [] else IsNumber(codes[i], n, xs[i] - xs[i - 1]) {
      PackedDifference(t, xs, i, codes[i], m, n, xs[i] - xs[i - 1]);
    }
  }

  lemma PackedDifference(t: ElemType, xs: seq<int>, i: nat, code: seq<bool>, m: nat, n: nat, d: int)
    requires AllIn(t, xs) && IsPacked(t, xs) && 1 <= i < |xs| && code == PackedCode(t, xs, i)
    requires m == MaxDelta(xs) && n == m + 1 && d == xs[i] - xs[i - 1]
    ensures if m == 0 then code == [] else IsNumber(code, n, d)
  {
    NextCode(t, xs, i);
    StepAt(xs, i, m);
    DeltaForm(m, n, xs[i - 1], xs[i], d);
  }

  lemma StepAt(xs: seq<int>, i: nat, m: nat)
    requires 1 <= i < |xs| && m == MaxDelta(xs)
    ensures xs[i] - xs[i - 1] < Pow2(m) && xs[i - 1] - xs[i] < Pow2(m)
  {
    MaxDeltaIff(xs, m);
  }

  lemma SameNumber(a: seq<bool>, b: seq<bool>, n: nat, v: int)
    requires IsNumber(a, n, v) && IsNumber(b, n, v)
    ensures a == b
  {}

  lemma DeltaForm(m: nat, n: nat, previous: int, x: int, d: int)
    requires n == m + 1 && d == x - previous && d < Pow2(m) && -d < Pow2(m)
    ensures if m == 0 then DeltaCode(m, previous, x) == [] else IsNumber(DeltaCode(m, previous, x), n, d)
  {
    if m > 0 { SignedIsNumber(n, d, ToBits(n, Encode2s(n, d))); }
  }

  /** An element in full: a bit, a number of its type's width, or a variable-length number. */
  lemma ElemForm(t: ElemType, x: int)
    requires InElem(t, x)
    ensures match t
            case BoolElem => ElemCode(t, x) == [x == 1]
            case IntElem(n, _, _) => IsNumber(ElemCode(t, x), n, x)
            case VarElem(k) => ElemCode(t, x) == VarNum.Encode(k, x)
  {
    FieldForm(FieldOf(t, x));
  }

  lemma WholeConcat(codes: seq<seq<bool>>, n: nat)
    requires n == |codes|
    ensures Concat(codes[..n]) == Concat(codes)
  {
    assert codes[..n] == codes;
  }

  lemma PackedCost(t: ElemType, xs: seq<int>, codes: seq<seq<bool>>)
    requires AllIn(t, xs) && xs != [] && IsPacked(t, xs) && codes == PackedCodes(t, xs)
    ensures |Concat(codes)| == PackedSize(t, xs)
  {
    forall j | 0 <= j < |codes| ensures |codes[j]| == if j == 0 then 7 + |ElemCode(t, xs[0])| else DeltaBits(MaxDelta(xs)) {
      CodeSize(t, xs, j);
    }
    PackedPrefix(codes, |ElemCode(t, xs[0])|, MaxDelta(xs), Others(xs), |xs|);
    WholeConcat(codes, |xs|);
  }

  lemma PlainCost(t: ElemType, xs: seq<int>, codes: seq<seq<bool>>, plain: seq<seq<bool>>)
    requires AllIn(t, xs) && xs != [] && !IsPacked(t, xs) && codes == PackedCodes(t, xs) && plain == PlainCodes(t, xs)
    ensures Concat(codes) == [false] + Concat(plain) && |Concat(codes)| == PlainSize(t, xs)
  {
    PlainTotal(t, xs, plain);
    UnpackedForm(t, xs, codes, plain);
    FlagFirst(codes, plain);
  }

  lemma FlagFirst(codes: seq<seq<bool>>, plain: seq<seq<bool>>)
    requires plain != [] && codes == [[false] + plain[0]] + plain[1..]
    ensures Concat(codes) == [false] + Concat(plain)
  {
    assert codes[1..] == plain[1..];
  }

  /** The bits of the whole packed array, as the plan counts them or as plain elements do. */
  lemma WholeCost(t: ElemType, xs: seq<int>)
    requires AllIn(t, xs) && xs != []
    ensures |Concat(PackedCodes(t, xs))| == if IsPacked(t, xs) then PackedSize(t, xs) else PlainSize(t, xs)
  {
    if IsPacked(t, xs) {
      PackedCost(t, xs, PackedCodes(t, xs));
    } else {
      PlainCost(t, xs, PackedCodes(t, xs), PlainCodes(t, xs));
    }
  }

  /** The decision on numbers alone: `fits` is everything but the comparison. */
  lemma CostsMore(packed: bool, fits: bool, plan: nat, plain: nat, size: nat)
    requires size == (if packed then plan else plain) && (packed <==> fits && plan % U32 < plain % U32)
    ensures size > plain <==> fits && plan / U32 > plain / U32 && plan % U32 < plain % U32
    ensures plan < U32 ==> size <= plain
  {}

  lemma CostsInRange(packed: bool, fits: bool, plan: nat, plain: nat, size: nat)
    requires size == (if packed then plan else plain) && (packed <==> fits && plan % U32 < plain % U32)
    requires plan < U32 && plain < U32
    ensures (packed <==> fits && plan < plain) && (size < plain || size == plain)
  {
    NoWrapIff(plan, U32);
    NoWrapIff(plain, U32);
  }

  /** Packed, an array takes the planned size; not packed, one bit more than its elements.
      Packing costs more than that one bit if and only if the planned size wraps at 32 bits
      more often than the plain one and so looks smaller than it. */
  lemma CompressionBound(t: ElemType, xs: seq<int>)
    requires AllIn(t, xs) && xs != []
    ensures var size, plan, plain := |Concat(PackedCodes(t, xs))|, PackedSize(t, xs), PlainSize(t, xs);
            && size == (if IsPacked(t, xs) then plan else plain)
            && (size > plain <==> |xs| >= 2 && MaxDelta(xs) <= MAX_BIT_NUMBER_LIMIT && plan / U32 > plain / U32 && plan % U32 < plain % U32)
            && (plan < U32 ==> size <= plain)
  {
    DecisionInFull(t, xs);
    WholeCost(t, xs);
    CostsMore(IsPacked(t, xs), |xs| >= 2 && MaxDelta(xs) <= MAX_BIT_NUMBER_LIMIT,
              PackedSize(t, xs), PlainSize(t, xs), |Concat(PackedCodes(t, xs))|);
  }

  /** Below 2^32 bits nothing wraps: packed is strictly smaller, or it is not packed. */
  lemma CompressionInRange(t: ElemType, xs: seq<int>)
    requires AllIn(t, xs) && xs != [] && PackedSize(t, xs) < U32 && PlainSize(t, xs) < U32
    ensures var size, plan, plain := |Concat(PackedCodes(t, xs))|, PackedSize(t, xs), PlainSize(t, xs);
            && (IsPacked(t, xs) <==> |xs| >= 2 && MaxDelta(xs) <= MAX_BIT_NUMBER_LIMIT && plan < plain)
            && (size < plain || size == plain)
  {
    DecisionInFull(t, xs);
    WholeCost(t, xs);
    CostsInRange(IsPacked(t, xs), |xs| >= 2 && MaxDelta(xs) <= MAX_BIT_NUMBER_LIMIT,
                 PackedSize(t, xs), PlainSize(t, xs), |Concat(PackedCodes(t, xs))|);
  }

  /** Bytes that are all zeros and ones by turns. */
  function ByTurns(n: nat): (xs: seq<int>)
    ensures |xs| == n
  {
    seq(n, i => if i % 2 == 0 then 0 else 255)
  }

  lemma ByTurnsFront(n: nat, front: nat)
    requires n == front + 1
    ensures ByTurns(n)[..front] == ByTurns(front) && ByTurns(n)[front] == if front % 2 == 0 then 0 else 255
  {}

  lemma {:induction false} ByTurnsCosts(n: nat)
    ensures AllIn(IntElem(8, W8, false), ByTurns(n)) && TotalBits(IntElem(8, W8, false), ByTurns(n)) == 8 * n
    ensures n >= 2 ==> MaxDelta(ByTurns(n)) == 8
  {
    SmallPowers();
    if n > 0 {
      ByTurnsCosts(n - 1);
      ByTurnsFront(n, n - 1);
      BitLengthBound(255, 7);
      BitLengthBound(255, 8);
    }
  }

  lemma WrappedCost(t: ElemType, xs: seq<int>, plan: nat, plain: nat)
    requires AllIn(t, xs) && |xs| >= 2 && MaxDelta(xs) <= MAX_BIT_NUMBER_LIMIT
    requires plan == PackedSize(t, xs) && plain == PlainSize(t, xs) && plan % U32 < plain % U32
    ensures IsPacked(t, xs) && |Concat(PackedCodes(t, xs))| == plan
  {
    DecisionInFull(t, xs);
    WholeCost(t, xs);
  }

  /** An array of 477218588 bytes is packed although that takes 4294967298 bits instead of
      3817748704. */
  lemma PackingCanCost()
    ensures var t, xs := IntElem(8, W8, false), ByTurns(477218588);
            && AllIn(t, xs) && IsPacked(t, xs)
            && TotalBits(t, xs) == 3817748704 && |Concat(PackedCodes(t, xs))| == 4294967298
  {
    var t, xs := IntElem(8, W8, false), ByTurns(477218588);
    ByTurnsCosts(477218588);
    TimesIsProduct(477218587, 9);
    WrappedCost(t, xs, 4294967298, 3817748705);
  }

  // ---- single elements --------------------------------------------------

  method BitSizeOfElem(t: ElemType, x: int) returns (bits: nat)
    requires InElem(t, x)
    ensures bits == |ElemCode(t, x)|
  {
    match t
    case BoolElem => bits := 1;
    case IntElem(n, _, _) => bits := n;
    case VarElem(k) =>
      VarNum.SignOfRange(k, x);
      var ok;
      ok, bits := VarNum.BitSizeOf(k, x);
  }

  lemma ElemBitsBound(t: ElemType, x: int)
    requires InElem(t, x)
    ensures 1 <= |ElemCode(t, x)| <= 72
  {}

  method WriteElem(w: BitStreamWriter, t: ElemType, x: int) returns (ok: bool)
    requires w.Valid() && InElem(t, x)
    modifies w`bitIndex, w.buffer
    ensures w.Valid()
    ensures ok <==> old(w.HasRoom(|ElemCode(t, x)|))
    ensures ok ==> w.Wrote(old(w.Bits()), old(w.bitIndex), ElemCode(t, x))
  {
    ok := w.WriteField(FieldOf(t, x));
  }

  method ReadElemFrom(r: BitStreamReader, t: ElemType) returns (res: Read<int>)
    requires r.Valid()
    modifies r
    ensures r.Sound() && (res.Ok? ==> r.Valid() && res.pos == r.bitIndex)
    ensures res == ReadElem(t, r.Bits(), old(r.bitIndex))
  {
    var f := r.ReadField(ShapeFor(t));
    res := if f.Ok? then Ok(ValueOf(f.value), f.pos) else Failed;
  }

  // ---- the context ------------------------------------------------------

  method AbsDeltaBitLength(absDelta: nat) returns (result: nat)
    ensures result == BitLength(absDelta)
  {
    result := 0;
    var d := absDelta;
    while d > 0
      invariant BitLength(absDelta) == result + BitLength(d)
    {
      result := result + 1;
      assert Shr(d, 1) == d / 2;
      d := Shr(d, 1);
    }
  }

  lemma ElemDistance(t: ElemType, x: int, y: int)
    requires InElem(t, x) && InElem(t, y)
    ensures AbsDiff(x, y) < U64
  {
    ElemInType(t, x);
    ElemInType(t, y);
  }

  lemma WordDifference(x: int, y: int)
    requires 0 <= x - y < U64
    ensures (Word(x) + U64 - Word(y)) % U64 == x - y
  {
    WordsApart(y, x, x - y);
    DivModUnique(x - y, U64, 0, x - y);
  }

  /** The difference is taken on words, and still comes out as the true one. */
  method CalcBitLength(t: ElemType, lhs: int, rhs: int) returns (result: nat)
    requires InElem(t, lhs) && InElem(t, rhs)
    ensures result == BitLength(AbsDiff(lhs, rhs))
  {
    ElemDistance(t, lhs, rhs);
    if lhs > rhs { WordDifference(lhs, rhs); } else { WordDifference(rhs, lhs); }
    var absDelta := if lhs > rhs then (Word(lhs) + U64 - Word(rhs)) % U64 else (Word(rhs) + U64 - Word(lhs)) % U64;
    assert absDelta == AbsDiff(lhs, rhs);
    result := AbsDeltaBitLength(absDelta);
  }

  lemma CountedOneMore(t: ElemType, xs: seq<int>, x: int)
    requires AllIn(t, xs) && InElem(t, x)
    ensures AllIn(t, xs + [x]) && TotalBits(t, xs + [x]) == TotalBits(t, xs) + |ElemCode(t, x)|
  {
    assert (xs + [x])[..|xs|] == xs;
  }

  lemma WrapOn(count: nat, next: nat, n: nat, more: nat, sum: nat, width: nat)
    requires width in {U32, U64} && count == n % width && next == (count + more) % width && sum == n + more
    ensures next == sum % width
  {}

  /** Counters that wrap, of `n` elements and `sum` bits. */
  method Bump(count: nat, total: nat, bits: nat, ghost n: nat, ghost sum: nat, ghost n': nat, ghost sum': nat) returns (count': nat, total': nat)
    requires count == Low(n, 32) && total == Low(sum, 64) && n' == n + 1 && sum' == sum + bits
    ensures count' == Low(n', 32) && total' == Low(sum', 64)
  {
    count', total' := (count + 1) % U32, (total + bits) % U64;
    LowWraps(n);
    LowWraps(n');
    LowWraps(sum);
    LowWraps(sum');
    WrapOn(count, count', n, 1, n', U32);
    WrapOn(total, total', sum, bits, sum', U64);
  }

  /** The first size fits in one byte. */
  lemma FirstSize(t: ElemType, x: int)
    requires InElem(t, x)
    ensures AllIn(t, [x]) && Low(TotalBits(t, [x]), 64) % 256 == |ElemCode(t, x)|
    ensures [] + [x] == [x] && MaxDelta([x]) == 0
  {
    CountedOneMore(t, [], x);
    ElemBitsBound(t, x);
    assert [] + [x] == [x];
    assert TotalBits(t, [x]) == |ElemCode(t, x)|;
    LowWraps(TotalBits(t, [x]));
    InOneByte(TotalBits(t, [x]));
  }

  lemma InOneByte(n: nat)
    requires n < 256
    ensures n % U64 % 256 == n
  {}

  lemma MaxDeltaOneMore(xs: seq<int>, x: int)
    requires xs != []
    ensures var m, w := MaxDelta(xs), BitLength(AbsDiff(x, xs[|xs| - 1])); MaxDelta(xs + [x]) == if w > m then w else m
  {
    assert (xs + [x])[..|xs|] == xs;
  }

  lemma MaxBitNumberFits(m: nat)
    requires m <= MAX_BIT_NUMBER_LIMIT
    ensures FitsUnsigned(MAX_BIT_NUMBER_BITS, m)
  {
    SmallPowers();
  }

  /** A 32-bit counter of `n` elements, less one. */
  lemma OneLess(n: nat)
    requires n >= 1
    ensures (n % U32 + U32 - 1) % U32 == (n - 1) % U32
  {}

  class DeltaContext {
    var previousElement: nat
    var maxBitNumber: nat
    var initStarted: bool
    var isPacked: bool
    var processingStarted: bool
    var firstElementBitSize: nat
    var numElements: nat
    var unpackedBitSize: nat

    constructor ()
      ensures State() == Fresh && !isPacked
      ensures forall t :: Counted(t, [])
    {
      previousElement, maxBitNumber := 0, 0;
      initStarted, isPacked, processingStarted := false, false, false;
      firstElementBitSize, numElements, unpackedBitSize := 0, 0, 0;
      LowWraps(0);
    }

    /** The elements `xs` have been announced by `Init`. */
    ghost predicate Counted(t: ElemType, xs: seq<int>)
      reads this
    {
      && AllIn(t, xs) && !processingStarted
      && (initStarted <==> xs != [])
      && Summed(t, xs)
      && (xs != [] ==> firstElementBitSize == |ElemCode(t, xs[0])|)
      && Tracked(xs)
    }

    ghost predicate Summed(t: ElemType, xs: seq<int>)
      reads this
    {
      AllIn(t, xs) && numElements == Low(|xs|, 32) && unpackedBitSize == Low(TotalBits(t, xs), 64)
    }

    /** The deltas between `xs` have been looked at, as far as one was too wide. */
    ghost predicate Tracked(xs: seq<int>)
      reads this
    {
      && (isPacked <==> |xs| >= 2 && MaxDelta(xs) <= MAX_BIT_NUMBER_LIMIT)
      && if MaxDelta(xs) <= MAX_BIT_NUMBER_LIMIT then
           maxBitNumber == MaxDelta(xs) && (xs != [] ==> previousElement == Word(xs[|xs| - 1]))
         else maxBitNumber > MAX_BIT_NUMBER_LIMIT
    }

    /** The decision about `xs` has been made. */
    ghost predicate Decided(t: ElemType, xs: seq<int>)
      reads this
    {
      && AllIn(t, xs) && xs != [] && processingStarted
      && (isPacked <==> IsPacked(t, xs))
      && (isPacked ==> maxBitNumber == MaxDelta(xs))
    }

    /** Before element `i` of `xs`. */
    ghost predicate Ready(t: ElemType, xs: seq<int>, i: nat)
      reads this
    {
      if i == 0 then Counted(t, xs) else Decided(t, xs)
    }

    /** Before element `i`, and the element before it is the one differences are taken from. */
    ghost predicate Following(t: ElemType, xs: seq<int>, i: nat)
      reads this
    {
      && Ready(t, xs, i) && i <= |xs|
      && (i > 0 && isPacked ==> previousElement == Word(Previous(xs, i)))
    }

    ghost function State(): DeltaState
      reads this
    {
      if !processingStarted then Fresh else if isPacked then Packed(maxBitNumber, previousElement) else Plain
    }

    /** Announces one element. */
    method Init(t: ElemType, element: int, ghost xs: seq<int>, ghost next: seq<int>)
      requires Counted(t, xs) && InElem(t, element) && next == xs + [element]
      modifies this
      ensures Counted(t, next)
    {
      AddSize(t, element, xs, next);
      if !initStarted {
        initStarted := true;
        FirstSize(t, element);
        previousElement := Word(element);
        firstElementBitSize := unpackedBitSize % 256;
      } else {
        TrackDelta(t, element, xs, next);
      }
    }

    method AddSize(t: ElemType, element: int, ghost xs: seq<int>, ghost next: seq<int>)
      requires Summed(t, xs) && InElem(t, element) && next == xs + [element]
      modifies this`numElements, this`unpackedBitSize
      ensures Summed(t, next)
    {
      var bits := BitSizeOfElem(t, element);
      CountedOneMore(t, xs, element);
      var count, total := Bump(numElements, unpackedBitSize, bits, |xs|, TotalBits(t, xs), |next|, TotalBits(t, next));
      numElements := count;
      unpackedBitSize := total;
    }

    method TrackDelta(t: ElemType, element: int, ghost xs: seq<int>, ghost next: seq<int>)
      requires Tracked(xs) && xs != [] && InElem(t, xs[|xs| - 1]) && InElem(t, element) && next == xs + [element]
      modifies this`isPacked, this`maxBitNumber, this`previousElement
      ensures Tracked(next)
    {
      MaxDeltaOneMore(xs, element);
      if maxBitNumber <= MAX_BIT_NUMBER_LIMIT {
        isPacked := true;
        CastBack(t, xs[|xs| - 1]);
        var previous := Cast(t, previousElement);
        var bitNumber := CalcBitLength(t, element, previous);
        if bitNumber > maxBitNumber {
          maxBitNumber := bitNumber;
          if maxBitNumber > MAX_BIT_NUMBER_LIMIT {
            isPacked := false;
          }
        }
        previousElement := Word(element);
      }
    }

    method IsCheaper(ghost n: nat, ghost others: nat, ghost total: nat) returns (b: bool)
      requires n == others + 1 && numElements == Low(n, 32) && unpackedBitSize == Low(total, 64)
      ensures b <==> Cheaper(firstElementBitSize, others, maxBitNumber, total)
    {
      LowWraps(n);
      OneLess(n);
      LowWraps(others);
      var less := (numElements + U32 - 1) % U32;
      BelowWraps(PlanSize(firstElementBitSize, less, maxBitNumber), WithFlag(unpackedBitSize));
      var packedBitSizeWithDescriptor := PlanSize(firstElementBitSize, less, maxBitNumber) % U32;
      var unpackedBitSizeWithDescriptor := WithFlag(unpackedBitSize) % U32;
      b := packedBitSizeWithDescriptor < unpackedBitSizeWithDescriptor;
    }

    method FinishInit(t: ElemType, ghost xs: seq<int>)
      requires xs != [] && AllIn(t, xs) && processingStarted
      requires Summed(t, xs) && firstElementBitSize == |ElemCode(t, xs[0])|
      requires Tracked(xs)
      modifies this`isPacked
      ensures Decided(t, xs)
    {
      if isPacked {
        ghost var others := Others(xs);
        DecisionIs(t, xs, firstElementBitSize, others, maxBitNumber, TotalBits(t, xs));
        var cheaper := IsCheaper(|xs|, others, TotalBits(t, xs));
        if !cheaper {
          isPacked := false;
        }
      }
    }

    method BitSizeOf(t: ElemType, element: int, ghost xs: seq<int>, ghost i: nat) returns (size: nat)
      requires Ready(t, xs, i) && i < |xs| && element == xs[i]
      modifies this
      ensures Ready(t, xs, i + 1)
      ensures size == |PackedCode(t, xs, i)|
    {
      if !processingStarted {
        processingStarted := true;
        FinishInit(t, xs);
        size := BitSizeOfElem(t, element);
        size := (if isPacked then 1 + MAX_BIT_NUMBER_BITS else 1) + size;
      } else if !isPacked {
        size := BitSizeOfElem(t, element);
      } else {
        size := maxBitNumber + (if maxBitNumber > 0 then 1 else 0);
      }
    }

    method WriteDescriptor(writer: BitStreamWriter, t: ElemType, ghost xs: seq<int>) returns (ok: bool)
      requires writer.Valid() && Decided(t, xs)
      modifies writer`bitIndex, writer.buffer
      ensures writer.Valid()
      ensures ok <==> old(writer.HasRoom(|Descriptor(t, xs)|))
      ensures ok ==> writer.Wrote(old(writer.Bits()), old(writer.bitIndex), Descriptor(t, xs))
    {
      ok := writer.WriteBool(isPacked);
      if ok && isPacked {
        ghost var mid, at := writer.Bits(), writer.bitIndex;
        MaxBitNumberFits(maxBitNumber);
        ok := writer.WriteUnsignedBits32(maxBitNumber, MAX_BIT_NUMBER_BITS);
        if ok {
          writer.WroteThen(old(writer.Bits()), old(writer.bitIndex), [true], mid, at, ToBits(MAX_BIT_NUMBER_BITS, maxBitNumber));
        }
      }
    }

    method WriteUnpacked(writer: BitStreamWriter, t: ElemType, element: int) returns (ok: bool)
      requires writer.Valid() && InElem(t, element)
      modifies this`previousElement, writer`bitIndex, writer.buffer
      ensures writer.Valid() && previousElement == Word(element)
      ensures ok <==> old(writer.HasRoom(|ElemCode(t, element)|))
      ensures ok ==> writer.Wrote(old(writer.Bits()), old(writer.bitIndex), ElemCode(t, element))
    {
      previousElement := Word(element);
      ok := WriteElem(writer, t, element);
    }

    /** Element `i`, after those before it. */
    method Write(writer: BitStreamWriter, t: ElemType, element: int, ghost xs: seq<int>, ghost i: nat, ghost next: nat) returns (ok: bool)
      requires writer.Valid() && Following(t, xs, i) && next == i + 1 <= |xs| && element == xs[i]
      modifies this, writer`bitIndex, writer.buffer
      ensures writer.Valid()
      ensures ok <==> old(writer.HasRoom(|PackedCode(t, xs, i)|))
      ensures ok ==> Following(t, xs, next)
      ensures ok ==> writer.Wrote(old(writer.Bits()), old(writer.bitIndex), PackedCode(t, xs, i))
    {
      PreviousIs(xs, i, next);
      if !processingStarted {
        ok := WriteFirst(writer, t, element, xs);
      } else if !isPacked {
        ok := WritePlain(writer, t, element, xs, i, next);
      } else {
        ok := WriteDifference(writer, t, element, xs, i, next);
      }
    }

    method WritePlain(writer: BitStreamWriter, t: ElemType, element: int, ghost xs: seq<int>, ghost i: nat, ghost next: nat) returns (ok: bool)
      requires writer.Valid() && Decided(t, xs) && !isPacked && 0 < i && next == i + 1 <= |xs| && element == xs[i]
      modifies this`previousElement, writer`bitIndex, writer.buffer
      ensures writer.Valid() && Decided(t, xs)
      ensures ok <==> old(writer.HasRoom(|PackedCode(t, xs, i)|))
      ensures ok ==> writer.Wrote(old(writer.Bits()), old(writer.bitIndex), PackedCode(t, xs, i))
    {
      PlainAt(t, xs, i, next);
      ok := WriteUnpacked(writer, t, element);
    }

    method WriteDifference(writer: BitStreamWriter, t: ElemType, element: int, ghost xs: seq<int>, ghost i: nat, ghost next: nat) returns (ok: bool)
      requires writer.Valid() && Decided(t, xs) && isPacked && 0 < i && next == i + 1 <= |xs| && element == xs[i]
      requires previousElement == Word(Previous(xs, i))
      modifies this`previousElement, writer`bitIndex, writer.buffer
      ensures writer.Valid() && Decided(t, xs)
      ensures ok <==> old(writer.HasRoom(|PackedCode(t, xs, i)|))
      ensures ok ==> previousElement == Word(element)
      ensures ok ==> writer.Wrote(old(writer.Bits()), old(writer.bitIndex), PackedCode(t, xs, i))
    {
      DifferenceAt(t, xs, i, next);
      ok := WriteDelta(writer, element, Previous(xs, i));
    }

    method WriteUnpackedAfter(writer: BitStreamWriter, t: ElemType, element: int, ghost was: seq<bool>, ghost start: nat, ghost prefix: seq<bool>)
      returns (ok: bool)
      requires writer.Valid() && InElem(t, element) && writer.Wrote(was, start, prefix)
      modifies this`previousElement, writer`bitIndex, writer.buffer
      ensures writer.Valid() && previousElement == Word(element)
      ensures ok <==> old(writer.HasRoom(|ElemCode(t, element)|))
      ensures ok ==> writer.Wrote(was, start, prefix + ElemCode(t, element))
    {
      ghost var mid, at := writer.Bits(), writer.bitIndex;
      ok := WriteUnpacked(writer, t, element);
      if ok { writer.WroteThen(was, start, prefix, mid, at, ElemCode(t, element)); }
    }

    method WriteFirst(writer: BitStreamWriter, t: ElemType, element: int, ghost xs: seq<int>) returns (ok: bool)
      requires writer.Valid() && Counted(t, xs) && xs != [] && element == xs[0]
      modifies this, writer`bitIndex, writer.buffer
      ensures writer.Valid()
      ensures ok <==> old(writer.HasRoom(|PackedCode(t, xs, 0)|))
      ensures ok ==> Decided(t, xs) && previousElement == Word(element)
      ensures ok ==> writer.Wrote(old(writer.Bits()), old(writer.bitIndex), PackedCode(t, xs, 0))
    {
      processingStarted := true;
      FinishInit(t, xs);
      ok := WriteDescriptor(writer, t, xs);
      if !ok { return; }
      ok := WriteUnpackedAfter(writer, t, element, old(writer.Bits()), old(writer.bitIndex), Descriptor(t, xs));
    }

    method WriteDelta(writer: BitStreamWriter, element: int, ghost previous: int) returns (ok: bool)
      requires writer.Valid() && previousElement == Word(previous)
      requires BitLength(AbsDiff(previous, element)) <= maxBitNumber <= MAX_BIT_NUMBER_LIMIT
      modifies this`previousElement, writer`bitIndex, writer.buffer
      ensures writer.Valid()
      ensures ok <==> old(writer.HasRoom(DeltaBits(maxBitNumber)))
      ensures ok ==> previousElement == Word(element)
      ensures ok ==> writer.Wrote(old(writer.Bits()), old(writer.bitIndex), DeltaCode(maxBitNumber, previous, element))
    {
      if maxBitNumber > 0 {
        DeltaFits(previous, element, maxBitNumber);
        DeltaIsDifference(previous, element);
        var delta := AsInt64((Word(element) + U64 - previousElement) % U64);
        ok := writer.WriteSignedBits64(delta, maxBitNumber + 1);
        previousElement := Word(element);
      } else {
        writer.WroteNothing();
        ok := true;
      }
    }

    method ReadDescriptor(reader: BitStreamReader) returns (ok: bool)
      requires reader.Valid() && processingStarted
      modifies this`isPacked, this`maxBitNumber, reader
      ensures reader.Sound() && (ok ==> reader.Valid() && (isPacked ==> maxBitNumber < 64))
      ensures var r := ReadHeader(reader.Bits(), old(reader.bitIndex));
              && (ok <==> r.Ok?)
              && (ok ==> r.pos == reader.bitIndex && r.value == if isPacked then Packed(maxBitNumber, 0) else Plain)
    {
      SmallPowers();
      var flag := reader.ReadUnsignedBitsImpl(1);
      if flag.Failed? { return false; }
      if flag.value != 0 {
        isPacked := true;
        var m := reader.ReadUnsignedBits32(MAX_BIT_NUMBER_BITS);
        if m.Failed? { return false; }
        maxBitNumber := m.value;
      } else {
        isPacked := false;
      }
      return true;
    }

    method ReadUnpacked(reader: BitStreamReader, t: ElemType) returns (res: Read<int>)
      requires reader.Valid()
      modifies this`previousElement, reader
      ensures reader.Sound() && (res.Ok? ==> reader.Valid() && res.pos == reader.bitIndex && previousElement == Word(res.value))
      ensures res == ReadElem(t, reader.Bits(), old(reader.bitIndex))
    {
      res := ReadElemFrom(reader, t);
      if res.Ok? { previousElement := Word(res.value); }
    }

    /** The descriptor and the first element. */
    method ReadFirstElement(reader: BitStreamReader, t: ElemType) returns (res: Read<int>)
      requires reader.Valid() && !processingStarted
      modifies this, reader
      ensures reader.Sound() && (res.Ok? ==> reader.Valid() && res.pos == reader.bitIndex && (isPacked ==> maxBitNumber < 64))
      ensures ReadDelta(t, Fresh, reader.Bits(), old(reader.bitIndex)) == if res.Ok? then Ok((res.value, State()), res.pos) else Failed
    {
      processingStarted := true;
      var ok := ReadDescriptor(reader);
      if !ok { return Failed; }
      res := ReadUnpacked(reader, t);
    }

    /** An element as its difference to the one before it, which is not always zero. */
    method ReadChange(reader: BitStreamReader, t: ElemType) returns (res: Read<int>)
      requires reader.Valid() && 0 < maxBitNumber < 64
      modifies this`previousElement, reader
      ensures reader.Sound() && (res.Ok? ==> reader.Valid() && res.pos == reader.bitIndex)
      ensures ReadDelta(t, Packed(maxBitNumber, old(previousElement)), reader.Bits(), old(reader.bitIndex))
           == if res.Ok? then Ok((res.value, Packed(maxBitNumber, previousElement)), res.pos) else Failed
    {
      ghost var bits, at := reader.Bits(), reader.bitIndex;
      var n := maxBitNumber + 1;
      var delta := reader.ReadSignedBits64(n);
      var readElement := if delta.Ok? then Cast(t, (previousElement + Word(delta.value)) % U64) else 0;
      DifferenceRead(t, maxBitNumber, n, previousElement, bits, at, delta, readElement);
      if delta.Failed? { return Failed; }
      previousElement := Word(readElement);
      return Ok(readElement, reader.bitIndex);
    }

    /** An element as its difference to the one before it. */
    method ReadDifference(reader: BitStreamReader, t: ElemType) returns (res: Read<int>)
      requires reader.Valid() && processingStarted && isPacked && maxBitNumber < 64
      modifies this`previousElement, reader
      ensures reader.Sound() && (res.Ok? ==> reader.Valid() && res.pos == reader.bitIndex)
      ensures ReadDelta(t, old(State()), reader.Bits(), old(reader.bitIndex)) == if res.Ok? then Ok((res.value, State()), res.pos) else Failed
    {
      if maxBitNumber > 0 {
        res := ReadChange(reader, t);
      } else {
        res := Ok(Cast(t, previousElement), reader.bitIndex);
      }
    }

    /** The next element, and the state to go on with. */
    method Read(reader: BitStreamReader, t: ElemType) returns (res: Read<int>)
      requires reader.Valid() && (isPacked ==> maxBitNumber < 64)
      modifies this, reader
      ensures reader.Sound() && (res.Ok? ==> reader.Valid() && res.pos == reader.bitIndex && (isPacked ==> maxBitNumber < 64))
      ensures ReadDelta(t, old(State()), reader.Bits(), old(reader.bitIndex))
              == if res.Ok? then Ok((res.value, State()), res.pos) else Failed
    {
      if !processingStarted {
        res := ReadFirstElement(reader, t);
      } else if !isPacked {
        res := ReadUnpacked(reader, t);
      } else {
        res := ReadDifference(reader, t);
      }
    }
  }
}
