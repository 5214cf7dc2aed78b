/** Bit strings and the numbers they denote, most significant bit first, and the
    arithmetic that shifts, masks and byte buffers come down to. */
module Bits {
  type byte = x: int | 0 <= x < 256

  const U8: nat := 0x100
  const U32: nat := 0x1_0000_0000
  const U64: nat := 0x1_0000_0000_0000_0000

  /** `v >> n`, `v << n` without overflow, and `v & (2^n - 1)`. */
  function Shr(v: nat, n: nat): nat {
    if n == 0 then v else Shr(v / 2, n - 1)
  }

  function Shl(v: nat, n: nat): nat {
    if n == 0 then v else 2 * Shl(v, n - 1)
  }

  function Low(v: nat, n: nat): nat {
    if n == 0 then 0 else 2 * Low(v / 2, n - 1) + v % 2
  }

  function Pow2(n: nat): (p: nat)
    ensures p >= 1
  {
    if n == 0 then 1 else 2 * Pow2(n - 1)
  }

  /** The low `n` bits of `v`. */
  function ToBits(n: nat, v: nat): (s: seq<bool>)
    ensures |s| == n
  {
    if n == 0 then [] else ToBits(n - 1, v / 2) + [v % 2 == 1]
  }

  function FromBits(s: seq<bool>): (v: nat)
  {
    if s == [] then 0 else 2 * FromBits(s[..|s| - 1]) + (if s[|s| - 1] then 1 else 0)
  }

  // ---- shifts and masks -------------------------------------------------

  lemma {:induction false} Pow2Add(a: nat, b: nat)
    ensures Pow2(a + b) == Pow2(a) * Pow2(b)
  {
    if a != 0 {
      Pow2Add(a - 1, b);
      assert Pow2(a + b) == 2 * Pow2(a + b - 1);
    }
  }

  lemma {:induction false} Pow2Monotone(a: nat, b: nat)
    requires a <= b
    ensures Pow2(a) <= Pow2(b)
  {
    if a < b { Pow2Monotone(a, b - 1); }
  }

  /** The powers the code writes as literals. */
  lemma SmallPowers()
    ensures Pow2(0) == 1 && Pow2(1) == 2 && Pow2(6) == 64 && Pow2(7) == 128 && Pow2(8) == U8
  {}

  lemma HalfWordPowers()
    ensures Pow2(16) == 0x1_0000 && Pow2(31) == 0x8000_0000 && Pow2(32) == U32
  {
    SmallPowers();
    Pow2Add(8, 8);
    Pow2Add(16, 16);
    Pow2Add(1, 31);
  }

  lemma WordPowers()
    ensures Pow2(31) == 0x8000_0000 && Pow2(32) == U32 && Pow2(62) == 0x4000_0000_0000_0000
    ensures Pow2(63) == 0x8000_0000_0000_0000 && Pow2(64) == U64
  {
    SmallPowers();
    HalfWordPowers();
    Pow2Add(32, 32);
    Pow2Add(1, 63);
    Pow2Add(1, 62);
  }

  lemma {:induction false} ShrShr(v: nat, a: nat, b: nat)
    ensures Shr(Shr(v, a), b) == Shr(v, a + b)
  {
    if a != 0 { ShrShr(v / 2, a - 1, b); }
  }

  lemma {:induction false} ShlShl(v: nat, a: nat, b: nat)
    ensures Shl(Shl(v, a), b) == Shl(v, a + b)
  {
    if b != 0 { ShlShl(v, a, b - 1); }
  }

  lemma {:induction false} ShlPlus(x: nat, y: nat, n: nat)
    ensures Shl(x + y, n) == Shl(x, n) + Shl(y, n)
  {
    if n != 0 { ShlPlus(x, y, n - 1); }
  }

  lemma {:induction false} ShlIsTimes(v: nat, n: nat)
    ensures Shl(v, n) == v * Pow2(n)
  {
    if n != 0 { ShlIsTimes(v, n - 1); }
  }

  /** A number is its high part shifted up, or-ed with its low part. */
  lemma {:induction false} Decompose(v: nat, n: nat)
    ensures v == Shl(Shr(v, n), n) + Low(v, n)
  {
    if n != 0 { Decompose(v / 2, n - 1); }
  }

  lemma {:induction false} LowBound(v: nat, n: nat)
    ensures Low(v, n) < Pow2(n)
  {
    if n != 0 { LowBound(v / 2, n - 1); }
  }

  lemma {:induction false} LowSmall(v: nat, n: nat)
    requires v < Pow2(n)
    ensures Low(v, n) == v && Shr(v, n) == 0
  {
    if n != 0 { LowSmall(v / 2, n - 1); }
  }

  lemma {:induction false} ShrBound(v: nat, a: nat, b: nat)
    requires v < Pow2(a + b)
    ensures Shr(v, b) < Pow2(a)
  {
    if b != 0 { ShrBound(v / 2, a, b - 1); }
  }

  /** Joining by shift-and-or and taking apart again. */
  lemma {:induction false} Join(hi: nat, lo: nat, n: nat)
    requires lo < Pow2(n)
    ensures Shr(Shl(hi, n) + lo, n) == hi && Low(Shl(hi, n) + lo, n) == lo
  {
    if n != 0 {
      assert (Shl(hi, n) + lo) / 2 == Shl(hi, n - 1) + lo / 2;
      Join(hi, lo / 2, n - 1);
    }
  }

  lemma JoinBound(hi: nat, lo: nat, a: nat, b: nat)
    requires hi < Pow2(a) && lo < Pow2(b)
    ensures Shl(hi, b) + lo < Pow2(a + b)
  {
    ShlIsTimes(hi, b);
    Pow2Add(a, b);
    assert hi * Pow2(b) + Pow2(b) == (hi + 1) * Pow2(b) <= Pow2(a) * Pow2(b) by {
      AtLeast(Pow2(a), hi + 1, Pow2(b));
    }
  }

  lemma AtLeast(x: nat, y: nat, d: nat)
    requires x >= y
    ensures x * d >= y * d
  {
    assert x * d == (x - y) * d + y * d;
  }

  // ---- Euclidean division -----------------------------------------------

  lemma Distribute(a: int, b: int, d: int)
    ensures (a - b) * d == a * d - d * b
  {}

  lemma AtLeastOne(k: int, d: int)
    requires k >= 1 && d >= 0
    ensures k * d >= d
  {
    assert k * d == (k - 1) * d + d && (k - 1) * d >= 0;
  }

  lemma Quotients(d: int, q: int, r: int, q': int, r': int)
    requires 0 <= r < d && 0 <= r' < d && q * d + r == d * q' + r'
    ensures q == q' && r == r'
  {
    if q > q' { AtLeastOne(q - q', d); Distribute(q, q', d); }
    if q < q' { AtLeastOne(q' - q, d); Distribute(q', q, d); }
  }

  lemma DivModUnique(v: int, d: int, q: int, r: int)
    requires d > 0 && 0 <= r < d && v == q * d + r
    ensures v / d == q && v % d == r
  {
    Quotients(d, q, r, v / d, v % d);
  }

  /** Shifts and masks as division and remainder. */
  lemma ShiftsAreDivMod(v: nat, n: nat)
    ensures Shr(v, n) == v / Pow2(n) && Low(v, n) == v % Pow2(n) && Shl(v, n) == v * Pow2(n)
  {
    Decompose(v, n);
    LowBound(v, n);
    ShlIsTimes(Shr(v, n), n);
    ShlIsTimes(v, n);
    DivModUnique(v, Pow2(n), Shr(v, n), Low(v, n));
  }

  /** Masks and shifts by the widths that occur inside one byte. */
  lemma ByteShifts(v: nat, w: nat)
    ensures w == 6 ==> Pow2(w) == 64
    ensures w == 7 ==> Pow2(w) == 128 && Low(v, w) == v % 128 && Shl(v, w) == v * 128
    ensures w == 8 ==> Pow2(w) == 256 && Low(v, w) == v % 256 && Shl(v, w) == v * 256
  {
    SmallPowers();
    ShiftsAreDivMod(v, w);
  }

  // ---- bit strings ------------------------------------------------------

  lemma {:induction false} FromBitsBound(s: seq<bool>)
    ensures FromBits(s) < Pow2(|s|)
  {
    if s != [] { FromBitsBound(s[..|s| - 1]); }
  }

  lemma {:induction false} FromConcat(s: seq<bool>, t: seq<bool>)
    ensures FromBits(s + t) == Shl(FromBits(s), |t|) + FromBits(t)
  {
    if t == [] {
      assert s + t == s;
    } else {
      var t' := t[..|t| - 1];
      FromConcat(s, t');
      assert (s + t)[..|s + t| - 1] == s + t';
    }
  }

  /** Shifting right by `|t|` keeps the leading bits; masking keeps the trailing ones. */
  lemma FromSplit(s: seq<bool>, t: seq<bool>)
    ensures Shr(FromBits(s + t), |t|) == FromBits(s)
    ensures Low(FromBits(s + t), |t|) == FromBits(t)
  {
    FromConcat(s, t);
    FromBitsBound(t);
    Join(FromBits(s), FromBits(t), |t|);
  }

  lemma {:induction false} ToBitsSplit(a: nat, b: nat, v: nat)
    ensures ToBits(a + b, v) == ToBits(a, Shr(v, b)) + ToBits(b, v)
  {
    if b != 0 { ToBitsSplit(a, b - 1, v / 2); }
  }

  /** Bit `i` of `n` is the one with the value `Pow2(n - 1 - i)`: the most significant comes first. */
  lemma {:induction false} BitAt(n: nat, v: nat, i: nat, weight: nat)
    requires i < n && weight == n - 1 - i
    ensures ToBits(n, v)[i] == (v / Pow2(weight) % 2 == 1)
  {
    if weight > 0 {
      BitAt(n - 1, v / 2, i, weight - 1);
      ShiftsAreDivMod(v, weight);
      ShiftsAreDivMod(v / 2, weight - 1);
    }
  }

  lemma {:induction false} FromTo(n: nat, v: nat)
    ensures FromBits(ToBits(n, v)) == Low(v, n)
  {
    if n != 0 {
      FromTo(n - 1, v / 2);
      assert ToBits(n, v)[..n - 1] == ToBits(n - 1, v / 2);
    }
  }

  lemma {:induction false} ToFrom(s: seq<bool>)
    ensures ToBits(|s|, FromBits(s)) == s
  {
    if s != [] { ToFrom(s[..|s| - 1]); }
  }

  /** Only the low `n` bits matter. */
  lemma ToBitsLow(n: nat, v: nat)
    ensures ToBits(n, Low(v, n)) == ToBits(n, v)
  {
    FromTo(n, v);
    ToFrom(ToBits(n, v));
  }

  /** Two fields joined by shift-and-or. */
  lemma ToBitsJoin(a: nat, b: nat, hi: nat, lo: nat)
    requires lo < Pow2(b)
    ensures ToBits(a + b, Shl(hi, b) + lo) == ToBits(a, hi) + ToBits(b, lo)
  {
    var v := Shl(hi, b) + lo;
    ToBitsSplit(a, b, v);
    Join(hi, lo, b);
    ToBitsLow(b, v);
  }

  // ---- overwriting part of a bit string ---------------------------------

  ghost predicate Fits(s: seq<bool>, pos: nat, x: seq<bool>) { pos + |x| <= |s| }

  /** `s` with the bits from `pos` on replaced by `x`. */
  function Splice(s: seq<bool>, pos: nat, x: seq<bool>): (r: seq<bool>)
    requires Fits(s, pos, x)
    ensures |r| == |s|
  {
    s[..pos] + x + s[pos + |x|..]
  }

  lemma SpliceSplice(s: seq<bool>, pos: nat, x: seq<bool>, y: seq<bool>)
    requires Fits(s, pos, x + y)
    ensures Splice(Splice(s, pos, x), pos + |x|, y) == Splice(s, pos, x + y)
  {}

  lemma SpliceNothing(s: seq<bool>, pos: nat)
    requires pos <= |s|
    ensures Splice(s, pos, []) == s
  {}

  /** An overwrite changes exactly its own bits and leaves exactly `x` there. */
  lemma SpliceFrame(s: seq<bool>, pos: nat, x: seq<bool>)
    requires Fits(s, pos, x)
    ensures Splice(s, pos, x)[pos..pos + |x|] == x
    ensures forall k :: 0 <= k < |s| && !(pos <= k < pos + |x|) ==> Splice(s, pos, x)[k] == s[k]
  {}

  // ---- byte buffers -----------------------------------------------------

  function BytesBits(s: seq<byte>): (r: seq<bool>)
    ensures |r| == 8 * |s|
  {
    seq(8 * |s|, k requires 0 <= k < 8 * |s| => ToBits(8, s[k / 8])[k % 8])
  }

  lemma BytesBitsByte(s: seq<byte>, i: nat)
    requires i < |s|
    ensures BytesBits(s)[8 * i..8 * i + 8] == ToBits(8, s[i])
  {
    forall j | 0 <= j < 8 ensures BytesBits(s)[8 * i + j] == ToBits(8, s[i])[j] {
      assert (8 * i + j) / 8 == i && (8 * i + j) % 8 == j;
    }
  }

  /** Bits 0 to 7 of a buffer are those of its first byte from 128 down to 1, and so on. */
  lemma BitOfByte(s: seq<byte>, i: nat, j: nat)
    requires i < |s| && j < 8
    ensures BytesBits(s)[8 * i + j] == (s[i] / [128, 64, 32, 16, 8, 4, 2, 1][j] % 2 == 1)
  {
    BytesBitsByte(s, i);
    assert BytesBits(s)[8 * i..8 * i + 8][j] == BytesBits(s)[8 * i + j];
    BitAt(8, s[i], j, 7 - j);
    assert Pow2(2) == 4 && Pow2(3) == 8 && Pow2(4) == 16 && Pow2(5) == 32;
    SmallPowers();
  }

  lemma BytesBitsConcat(s: seq<byte>, t: seq<byte>)
    ensures BytesBits(s + t) == BytesBits(s) + BytesBits(t)
  {
    var l, r := BytesBits(s + t), BytesBits(s) + BytesBits(t);
    forall k | 0 <= k < |l| ensures l[k] == r[k] {
      if k >= 8 * |s| {
        assert (k - 8 * |s|) / 8 == k / 8 - |s| && (k - 8 * |s|) % 8 == k % 8;
      }
    }
  }

  lemma BytesBitsSlice(s: seq<byte>, i: nat, j: nat)
    requires i <= j <= |s|
    ensures BytesBits(s[i..j]) == BytesBits(s)[8 * i..8 * j]
  {
    assert s == s[..i] + s[i..j] + s[j..];
    BytesBitsConcat(s[..i] + s[i..j], s[j..]);
    BytesBitsConcat(s[..i], s[i..j]);
  }

  lemma BytesBitsOne(b: byte)
    ensures BytesBits([b]) == ToBits(8, b)
  {
    BytesBitsByte([b], 0);
  }

  lemma ByteFromBits(b: byte)
    ensures FromBits(ToBits(8, b)) == b
  {
    FromTo(8, b);
    SmallPowers();
    LowSmall(b, 8);
  }

  lemma AroundByte(s: seq<byte>, i: nat, b: byte)
    requires i < |s|
    ensures BytesBits(s[i := b]) == BytesBits(s[..i]) + ToBits(8, b) + BytesBits(s[i + 1..])
  {
    assert s[i := b] == s[..i] + [b] + s[i + 1..];
    BytesBitsConcat(s[..i] + [b], s[i + 1..]);
    BytesBitsConcat(s[..i], [b]);
    BytesBitsOne(b);
  }

  lemma SpliceInside(front: seq<bool>, m: seq<bool>, back: seq<bool>, used: nat, x: seq<bool>)
    requires Fits(m, used, x)
    ensures Splice(front + m + back, |front| + used, x) == front + Splice(m, used, x) + back
  {
    var l, r := Splice(front + m + back, |front| + used, x), front + Splice(m, used, x) + back;
    forall k | 0 <= k < |l| ensures l[k] == r[k] {}
  }

  /** Overwriting bits inside one byte overwrites the same bits of the buffer. */
  lemma ByteSplice(s: seq<byte>, i: nat, used: nat, x: seq<bool>, b: byte, at: nat)
    requires i < |s| && used + |x| <= 8 && at == 8 * i + used
    requires ToBits(8, b) == Splice(ToBits(8, s[i]), used, x)
    ensures BytesBits(s[i := b]) == Splice(BytesBits(s), at, x)
  {
    AroundByte(s, i, b);
    AroundByte(s, i, s[i]);
    assert s[i := s[i]] == s;
    SpliceInside(BytesBits(s[..i]), ToBits(8, s[i]), BytesBits(s[i + 1..]), used, x);
  }

  lemma BytesBitsInjective(s: seq<byte>, t: seq<byte>)
    requires BytesBits(s) == BytesBits(t)
    ensures s == t
  {
    assert |s| == |t|;
    forall i | 0 <= i < |s| ensures s[i] == t[i] {
      BytesBitsByte(s, i);
      BytesBitsByte(t, i);
      ByteFromBits(s[i]);
      ByteFromBits(t[i]);
    }
  }
}
