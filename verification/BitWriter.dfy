/** The bit stream writer: bytes of a caller's buffer masked and overwritten in place at
    any bit offset, or, without a buffer, only counted. */
module BitWriter {
  import opened Bits
  import Wire
  import VarNum
  import Fields

  /** `b & ~(mask << shift) | ((data & mask) << shift)` for the mask of `count` ones. */
  function PatchByte(b: byte, shift: nat, count: nat, data: nat): (r: byte)
    requires shift + count <= 8
  {
    var cleared := b - Shl(Low(Shr(b, shift), count), shift);
    PatchBound(b, shift, count, data);
    cleared + Shl(Low(data, count), shift)
  }

  /** The byte as its three parts around the patched field. */
  lemma Parts(b: nat, shift: nat, count: nat)
    ensures b == Shl(Shl(Shr(b, shift + count), count) + Low(Shr(b, shift), count), shift) + Low(b, shift)
    ensures b - Shl(Low(Shr(b, shift), count), shift) == Shl(Shl(Shr(b, shift + count), count), shift) + Low(b, shift)
  {
    Decompose(b, shift);
    Decompose(Shr(b, shift), count);
    ShrShr(b, shift, count);
    ShlPlus(Shl(Shr(b, shift + count), count), Low(Shr(b, shift), count), shift);
  }

  lemma ThreeParts(a: nat, hi: nat, count: nat, mid: nat, shift: nat, lo: nat)
    requires hi < Pow2(a) && mid < Pow2(count) && lo < Pow2(shift)
    ensures Shl(Shl(hi, count) + mid, shift) + lo < Pow2(a + count + shift)
  {
    JoinBound(hi, mid, a, count);
    JoinBound(Shl(hi, count) + mid, lo, a + count, shift);
  }

  /** The parts of a number of `width` bits around a field, with the field replaced. */
  lemma PatchedNumber(width: nat, b: nat, shift: nat, count: nat, data: nat)
    requires b < Pow2(width) && shift + count <= width
    ensures var patched := Shl(Shl(Shr(b, shift + count), count) + Low(data, count), shift) + Low(b, shift);
            && b >= Shl(Low(Shr(b, shift), count), shift)
            && b - Shl(Low(Shr(b, shift), count), shift) + Shl(Low(data, count), shift) == patched < Pow2(width)
  {
    var hi := Shr(b, shift + count);
    Parts(b, shift, count);
    ShlPlus(Shl(hi, count), Low(data, count), shift);
    ShrBound(b, width - (shift + count), shift + count);
    LowBound(data, count);
    LowBound(b, shift);
    ThreeParts(width - (shift + count), hi, count, Low(data, count), shift, Low(b, shift));
  }

  lemma PatchBound(b: byte, shift: nat, count: nat, data: nat)
    requires shift + count <= 8
    ensures var cleared := b - Shl(Low(Shr(b, shift), count), shift);
            cleared >= 0 && 0 <= cleared + Shl(Low(data, count), shift) < 256
    ensures b - Shl(Low(Shr(b, shift), count), shift) + Shl(Low(data, count), shift)
         == Shl(Shl(Shr(b, shift + count), count) + Low(data, count), shift) + Low(b, shift)
  {
    SmallPowers();
    PatchedNumber(8, b, shift, count, data);
  }

  lemma PatchedBits(width: nat, b: nat, shift: nat, count: nat, data: nat)
    requires shift + count <= width
    ensures ToBits(width, Shl(Shl(Shr(b, shift + count), count) + Low(data, count), shift) + Low(b, shift))
         == Splice(ToBits(width, b), width - shift - count, ToBits(count, data))
  {
    var used := width - shift - count;
    var hi, mid, lo := Shr(b, shift + count), Low(data, count), Low(b, shift);
    LowBound(data, count);
    LowBound(b, shift);
    ToBitsJoin(used + count, shift, Shl(hi, count) + mid, lo);
    ToBitsJoin(used, count, hi, mid);
    ToBitsLow(count, data);
    ToBitsLow(shift, b);
    OldParts(used, count, shift, b);
  }

  lemma OldParts(used: nat, count: nat, shift: nat, b: nat)
    ensures ToBits(used + count + shift, b) == ToBits(used, Shr(b, shift + count)) + ToBits(count, Shr(b, shift)) + ToBits(shift, b)
  {
    ToBitsSplit(used + count, shift, b);
    ToBitsSplit(used, count, Shr(b, shift));
    ShrShr(b, shift, count);
  }

  /** Patching a byte overwrites exactly the field's bits. */
  lemma PatchBits(b: byte, shift: nat, count: nat, data: nat)
    requires shift + count <= 8
    ensures ToBits(8, PatchByte(b, shift, count, data))
         == Splice(ToBits(8, b), 8 - shift - count, ToBits(count, data))
  {
    PatchBound(b, shift, count, data);
    PatchedBits(8, b, shift, count, data);
  }

  lemma CopiedBits(was: seq<byte>, at: nat, data: seq<byte>)
    requires at + |data| <= |was|
    ensures BytesBits(was[..at] + data + was[at + |data|..]) == Splice(BytesBits(was), 8 * at, BytesBits(data))
  {
    BytesBitsConcat(was[..at] + data, was[at + |data|..]);
    BytesBitsConcat(was[..at], data);
    BytesBitsSlice(was, 0, at);
    BytesBitsSlice(was, at + |data|, |was|);
  }

  /** The bits of `data` down to the last `rest`. */
  function Leading(numBits: nat, rest: nat, data: nat): (s: seq<bool>)
    requires rest <= numBits
    ensures |s| == numBits - rest
    ensures rest == 0 ==> s == ToBits(numBits, data)
  {
    ToBits(numBits - rest, Shr(data, rest))
  }

  lemma LeadingExtends(numBits: nat, rest: nat, count: nat, left: nat, data: nat)
    requires rest == left + count <= numBits
    ensures Leading(numBits, rest, data) + ToBits(count, Shr(data, left)) == Leading(numBits, left, data)
  {
    ShrShr(data, left, count);
    ToBitsSplit(numBits - rest, count, Shr(data, left));
  }

  /** A number in two halves. */
  lemma HighLow(a: nat, b: nat, data: nat)
    requires data < Pow2(a + b)
    ensures Shr(data, b) < Pow2(a) && Low(data, b) < Pow2(b)
    ensures ToBits(a, Shr(data, b)) + ToBits(b, Low(data, b)) == ToBits(a + b, data)
  {
    ShrBound(data, a, b);
    LowBound(data, b);
    ToBitsSplit(a, b, data);
    ToBitsLow(b, data);
  }

  class BitStreamWriter {
    const buffer: array?<byte>
    const bufferBitSize: nat
    var bitIndex: nat

    ghost predicate Valid()
      reads this
    {
      buffer != null ==> bufferBitSize <= 8 * buffer.Length && bitIndex <= bufferBitSize
    }

    /** The bits of the buffer. */
    ghost function Bits(): seq<bool>
      reads this, buffer
    {
      if buffer == null then [] else BytesBits(buffer[..])
    }

    predicate HasRoom(numBits: nat)
      reads this
    {
      buffer == null || bitIndex + numBits <= bufferBitSize
    }

    /** From a buffer `was` at position `start`, exactly `code` has been written. */
    ghost predicate Wrote(was: seq<bool>, start: nat, code: seq<bool>)
      reads this, buffer
    {
      && bitIndex == start + |code|
      && (buffer == null ==> was == [])
      && (buffer != null ==> Fits(was, start, code) && Bits() == Splice(was, start, code))
    }

    /** A failed write may leave a part behind, never before the position it started at. */
    ghost predicate Kept(was: seq<bool>, start: nat)
      reads this, buffer
    {
      && bitIndex >= start && |Bits()| == |was|
      && forall k :: 0 <= k < start && k < |was| ==> Bits()[k] == was[k]
    }

    lemma WroteThen(was: seq<bool>, start: nat, code: seq<bool>, mid: seq<bool>, at: nat, more: seq<bool>)
      requires buffer != null ==> Fits(was, start, code) && mid == Splice(was, start, code)
      requires (buffer == null ==> was == []) && at == start + |code| && Wrote(mid, at, more)
      ensures Wrote(was, start, code + more)
    {
      if buffer != null { SpliceSplice(was, start, code, more); }
    }

    lemma WroteNothing()
      requires Valid()
      ensures Wrote(Bits(), bitIndex, [])
    {
      if buffer != null { SpliceNothing(Bits(), bitIndex); }
    }

    /** A buffer given with its size in bits; too small a buffer is refused by throwing. */
    constructor (buffer: array<byte>, bufferBitSize: nat)
      requires (bufferBitSize + 7) / 8 <= buffer.Length
      ensures Valid() && this.buffer == buffer && this.bufferBitSize == bufferBitSize && bitIndex == 0
    {
      this.buffer := buffer;
      this.bufferBitSize := bufferBitSize;
      bitIndex := 0;
    }

    /** No buffer: the writer only measures. */
    constructor Measuring(bufferBitSize: nat)
      ensures Valid() && buffer == null && this.bufferBitSize == bufferBitSize && bitIndex == 0
    {
      buffer := null;
      this.bufferBitSize := bufferBitSize;
      bitIndex := 0;
    }

    /** Overwrites `count` bits of one byte, `shift` bits above its low end. */
    method PutField(byteIndex: nat, shift: nat, count: nat, data: nat, ghost at: nat)
      requires buffer != null && byteIndex < buffer.Length && shift + count <= 8 && at == 8 * byteIndex + (8 - shift - count)
      modifies buffer
      ensures Fits(old(Bits()), at, ToBits(count, data)) && Bits() == Splice(old(Bits()), at, ToBits(count, data))
    {
      ghost var was := buffer[..];
      var b := PatchByte(buffer[byteIndex], shift, count, data);
      PatchBits(buffer[byteIndex], shift, count, data);
      buffer[byteIndex] := b;
      assert buffer[..] == was[byteIndex := b];
      ByteSplice(was, byteIndex, 8 - shift - count, ToBits(count, data), b, at);
    }

    /** The bits of `data` down to its last `rest` have been put at the position. */
    ghost predicate Partly(was: seq<bool>, numBits: nat, rest: nat, data: nat)
      reads this, buffer
    {
      && buffer != null && rest <= numBits && bitIndex + numBits <= |was| == 8 * buffer.Length
      && Bits() == Splice(was, bitIndex, Leading(numBits, rest, data))
    }

    lemma NothingPut(numBits: nat, data: nat)
      requires buffer != null && bitIndex + numBits <= 8 * buffer.Length
      ensures Partly(Bits(), numBits, numBits, data)
    {
      SpliceNothing(Bits(), bitIndex);
      assert Leading(numBits, numBits, data) == [];
    }

    /** The next `count` of them, which leaves `left`. */
    method PutNext(byteIndex: nat, shift: nat, count: nat, data: nat, numBits: nat, rest: nat, left: nat, ghost was: seq<bool>)
      requires Partly(was, numBits, rest, data) && rest == left + count && count >= 1 && shift + count <= 8
      requires 8 * byteIndex + (8 - shift - count) == bitIndex + (numBits - rest)
      modifies buffer
      ensures Partly(was, numBits, left, data)
    {
      ghost var lead, x := Leading(numBits, rest, data), ToBits(count, Shr(data, left));
      PutField(byteIndex, shift, count, Shr(data, left), bitIndex + |lead|);
      LeadingExtends(numBits, rest, count, left, data);
      SpliceSplice(was, bitIndex, lead, x);
    }

    /** Whole bytes of `data` while at least eight of its low `rest` bits remain. */
    method PutWholeBytes(data: nat, numBits: nat, rest: nat, byteIndex: nat, ghost was: seq<bool>) returns (left: nat, next: nat)
      requires Partly(was, numBits, rest, data) && 8 * byteIndex == bitIndex + (numBits - rest)
      modifies buffer
      ensures Partly(was, numBits, left, data) && left < 8 && 8 * next == bitIndex + (numBits - left)
    {
      left, next := rest, byteIndex;
      while left >= 8
        invariant Partly(was, numBits, left, data) && 8 * next == bitIndex + (numBits - left)
      {
        PutNext(next, 0, 8, data, numBits, left, left - 8, was);
        left := left - 8;
        next := next + 1;
      }
    }

    /** The byte that holds the position, and its bits from there on. */
    method Locate() returns (byteIndex: nat, bitsFree: nat)
      ensures 8 * byteIndex + (8 - bitsFree) == bitIndex && 1 <= bitsFree <= 8
    {
      byteIndex, bitsFree := bitIndex / 8, 8 - bitIndex % 8;
    }

    /** First part, whole bytes, last part. */
    method PutBits(data: nat, numBits: nat)
      requires Valid() && buffer != null && bitIndex + numBits <= bufferBitSize
      modifies buffer
      ensures Fits(old(Bits()), bitIndex, ToBits(numBits, data))
      ensures Bits() == Splice(old(Bits()), bitIndex, ToBits(numBits, data))
    {
      ghost var was := Bits();
      var restNumBits := numBits;
      var byteIndex, bitsFree := Locate();
      NothingPut(numBits, data);
      if restNumBits > bitsFree {
        restNumBits := numBits - bitsFree;
        PutNext(byteIndex, 0, bitsFree, data, numBits, numBits, restNumBits, was);
        restNumBits, byteIndex := PutWholeBytes(data, numBits, restNumBits, byteIndex + 1, was);
        bitsFree := 8;
      }
      PutLast(data, numBits, restNumBits, bitsFree, byteIndex, was);
    }

    method PutLast(data: nat, numBits: nat, rest: nat, bitsFree: nat, byteIndex: nat, ghost was: seq<bool>)
      requires Partly(was, numBits, rest, data) && rest <= bitsFree <= 8 && 8 * byteIndex + (8 - bitsFree) == bitIndex + (numBits - rest)
      modifies buffer
      ensures Fits(was, bitIndex, ToBits(numBits, data)) && Bits() == Splice(was, bitIndex, ToBits(numBits, data))
    {
      if rest > 0 {
        PutNext(byteIndex, bitsFree - rest, rest, data, numBits, rest, 0, was);
      }
    }

    /** Unchecked write of up to 32 bits. */
    method WriteUnsignedBits32Impl(data: nat, numBits: nat) returns (ok: bool)
      requires Valid() && numBits <= 32 && data < Pow2(numBits)
      modifies this`bitIndex, buffer
      ensures Valid()
      ensures ok <==> old(HasRoom(numBits))
      ensures ok ==> Wrote(old(Bits()), old(bitIndex), ToBits(numBits, data))
      ensures !ok ==> bitIndex == old(bitIndex) && Bits() == old(Bits())
    {
      if buffer == null {
        bitIndex := bitIndex + numBits;
        return true;
      }
      if bitIndex + numBits > bufferBitSize {
        return false;
      }
      PutBits(data, numBits);
      bitIndex := bitIndex + numBits;
      return true;
    }

    /** More bits, behind what has been written since `start`. */
    method WriteMore(data: nat, numBits: nat, ghost was: seq<bool>, ghost start: nat, ghost prefix: seq<bool>) returns (ok: bool)
      requires Valid() && numBits <= 32 && data < Pow2(numBits) && Wrote(was, start, prefix)
      modifies this`bitIndex, buffer
      ensures Valid()
      ensures ok <==> old(HasRoom(numBits))
      ensures ok ==> Wrote(was, start, prefix + ToBits(numBits, data))
      ensures !ok ==> Kept(was, start)
    {
      ghost var mid, at := Bits(), bitIndex;
      ok := WriteUnsignedBits32Impl(data, numBits);
      if ok { WroteThen(was, start, prefix, mid, at, ToBits(numBits, data)); }
    }

    method WriteUnsignedBits64Impl(data: nat, numBits: nat) returns (ok: bool)
      requires Valid() && numBits <= 64 && data < Pow2(numBits)
      modifies this`bitIndex, buffer
      ensures Valid()
      ensures ok <==> old(HasRoom(numBits))
      ensures ok ==> Wrote(old(Bits()), old(bitIndex), ToBits(numBits, data))
      ensures !ok ==> Kept(old(Bits()), old(bitIndex))
    {
      if numBits <= 32 {
        ok := WriteUnsignedBits32Impl(data, numBits);
      } else {
        HighLow(numBits - 32, 32, data);
        ok := WriteUnsignedBits32Impl(Shr(data, 32), numBits - 32);
        if !ok { return; }
        ok := WriteMore(Low(data, 32), 32, old(Bits()), old(bitIndex), ToBits(numBits - 32, Shr(data, 32)));
      }
    }

    /** Checked writes: a width out of range or a value that does not fit is refused. */
    method WriteUnsignedBits32(data: nat, numBits: nat) returns (ok: bool)
      requires Valid()
      modifies this`bitIndex, buffer
      ensures Valid()
      ensures ok <==> 1 <= numBits <= 32 && Wire.FitsUnsigned(numBits, data) && old(HasRoom(numBits))
      ensures ok ==> Wrote(old(Bits()), old(bitIndex), ToBits(numBits, data))
      ensures !ok ==> bitIndex == old(bitIndex) && Bits() == old(Bits())
    {
      if numBits == 0 || numBits > 32 || data > Pow2(numBits) - 1 { return false; }
      ok := WriteUnsignedBits32Impl(data, numBits);
    }

    method WriteUnsignedBits64(data: nat, numBits: nat) returns (ok: bool)
      requires Valid()
      modifies this`bitIndex, buffer
      ensures Valid()
      ensures ok <==> 1 <= numBits <= 64 && Wire.FitsUnsigned(numBits, data) && old(HasRoom(numBits))
      ensures ok ==> Wrote(old(Bits()), old(bitIndex), ToBits(numBits, data))
      ensures !ok ==> Kept(old(Bits()), old(bitIndex))
    {
      if numBits == 0 || numBits > 64 || data > Pow2(numBits) - 1 { return false; }
      ok := WriteUnsignedBits64Impl(data, numBits);
    }

    method WriteSignedBits32(data: int, numBits: nat) returns (ok: bool)
      requires Valid()
      modifies this`bitIndex, buffer
      ensures Valid()
      ensures ok <==> 1 <= numBits <= 32 && Wire.FitsSigned(numBits, data) && old(HasRoom(numBits))
      ensures ok ==> Wrote(old(Bits()), old(bitIndex), ToBits(numBits, Wire.Encode2s(numBits, data)))
      ensures !ok ==> bitIndex == old(bitIndex) && Bits() == old(Bits())
    {
      if numBits == 0 || numBits > 32 || data + Pow2(numBits - 1) < 0 || data > Pow2(numBits - 1) - 1 { return false; }
      ok := WriteUnsignedBits32Impl(Wire.Encode2s(numBits, data), numBits);
    }

    method WriteSignedBits64(data: int, numBits: nat) returns (ok: bool)
      requires Valid()
      modifies this`bitIndex, buffer
      ensures Valid()
      ensures ok <==> 1 <= numBits <= 64 && Wire.FitsSigned(numBits, data) && old(HasRoom(numBits))
      ensures ok ==> Wrote(old(Bits()), old(bitIndex), ToBits(numBits, Wire.Encode2s(numBits, data)))
      ensures !ok ==> Kept(old(Bits()), old(bitIndex))
    {
      if numBits == 0 || numBits > 64 || data + Pow2(numBits - 1) < 0 || data > Pow2(numBits - 1) - 1 { return false; }
      ok := WriteUnsignedBits64Impl(Wire.Encode2s(numBits, data), numBits);
    }

    method WriteBool(data: bool) returns (ok: bool)
      requires Valid()
      modifies this`bitIndex, buffer
      ensures Valid()
      ensures ok <==> old(HasRoom(1))
      ensures ok ==> Wrote(old(Bits()), old(bitIndex), [data])
      ensures !ok ==> bitIndex == old(bitIndex) && Bits() == old(Bits())
    {
      SmallPowers();
      ok := WriteUnsignedBits32Impl(if data then 1 else 0, 1);
      assert ToBits(1, if data then 1 else 0) == [data];
    }

    method SetBitPosition(position: nat) returns (ok: bool)
      requires Valid()
      modifies this`bitIndex
      ensures Valid()
      ensures ok <==> buffer == null || position <= bufferBitSize
      ensures bitIndex == if ok then position else old(bitIndex)
    {
      if buffer != null && position > bufferBitSize { return false; }
      bitIndex := position;
      return true;
    }

    /** Zero bits up to the next multiple of `alignment`. */
    method AlignTo(alignment: nat) returns (ok: bool)
      requires Valid() && alignment >= 1
      modifies this`bitIndex, buffer
      ensures Valid()
      ensures var pad := ToBits(Wire.AlignSkip(alignment, old(bitIndex)), 0);
              && (ok <==> Wire.AlignWorks(alignment, old(bitIndex)) && old(HasRoom(|pad|)))
              && (ok ==> Wrote(old(Bits()), old(bitIndex), pad))
      ensures !ok ==> Kept(old(Bits()), old(bitIndex))
    {
      var offset := bitIndex % alignment;
      WroteNothing();
      assert ToBits(0, 0) == [];
      if offset == 0 { return true; }
      var skip := (alignment - offset) % 256;
      ok := WriteUnsignedBits64(0, skip);
    }

    /** The next byte of a byte string of which `done` has been written. */
    method WriteByte(b: byte, ghost was: seq<bool>, ghost start: nat, ghost done: seq<byte>) returns (ok: bool)
      requires Valid() && Wrote(was, start, BytesBits(done))
      modifies this`bitIndex, buffer
      ensures Valid()
      ensures ok <==> old(HasRoom(8))
      ensures ok ==> Wrote(was, start, BytesBits(done + [b]))
      ensures !ok ==> Kept(was, start)
    {
      SmallPowers();
      BytesBitsOne(b);
      BytesBitsConcat(done, [b]);
      ok := WriteMore(b, 8, was, start, BytesBits(done));
    }

    /** One variable-length number, byte by byte. */
    method WriteVarNum(k: VarNum.VarKind, value: nat, isNegative: bool, numVarBytes: nat) returns (ok: bool)
      requires Valid() && 1 <= numVarBytes <= k.MaxBytes()
      modifies this`bitIndex, buffer
      ensures Valid()
      ensures ok <==> old(HasRoom(8 * numVarBytes))
      ensures ok ==> Wrote(old(Bits()), old(bitIndex), BytesBits(VarNum.VarBytes(k, value, isNegative, numVarBytes)))
      ensures !ok ==> Kept(old(Bits()), old(bitIndex))
    {
      ghost var was, start, done := Bits(), bitIndex, [];
      WroteNothing();
      var i := 0;
      while i < numVarBytes
        invariant 0 <= i <= numVarBytes && Valid() && |done| == i
        invariant Wrote(was, start, BytesBits(done))
        invariant forall j :: 0 <= j < i ==> done[j] == VarNum.VarByte(k, value, isNegative, numVarBytes, j)
      {
        var byte := VarNum.BuildByte(k, value, isNegative, numVarBytes, i);
        ok := WriteByte(byte, was, start, done);
        if !ok { return; }
        done := done + [byte];
        i := i + 1;
      }
      assert done == VarNum.VarBytes(k, value, isNegative, numVarBytes);
      return true;
    }

    method WriteVar(k: VarNum.VarKind, data: int) returns (ok: bool)
      requires Valid() && (k.Signed() || data >= 0)
      modifies this`bitIndex, buffer
      ensures Valid()
      ensures ok <==> VarNum.InRange(k, data) && old(HasRoom(|VarNum.Encode(k, data)|))
      ensures ok ==> Wrote(old(Bits()), old(bitIndex), VarNum.Encode(k, data))
      ensures !ok ==> Kept(old(Bits()), old(bitIndex))
    {
      if k.VarInt? && data == VarNum.INT64_MIN {
        assert VarNum.FitsIn(k, data, 1);
        SmallPowers();
        ok := WriteUnsignedBits32Impl(0x80, 8);
        BytesBitsOne(0x80);
      } else {
        var bits;
        ok, bits := VarNum.BitSizeOf(k, data);
        if !ok { return; }
        assert bits / 8 == VarNum.ByteCount(k, data);
        ok := WriteVarNum(k, VarNum.Abs(data), data < 0, bits / 8);
      }
    }

    method WriteOneByOne(data: seq<byte>) returns (ok: bool)
      requires Valid()
      modifies this`bitIndex, buffer
      ensures Valid()
      ensures ok <==> old(HasRoom(8 * |data|))
      ensures ok ==> Wrote(old(Bits()), old(bitIndex), BytesBits(data))
      ensures !ok ==> Kept(old(Bits()), old(bitIndex))
    {
      ghost var was, start := Bits(), bitIndex;
      WroteNothing();
      var i := 0;
      while i < |data|
        invariant 0 <= i <= |data| && Valid()
        invariant Wrote(was, start, BytesBits(data[..i]))
      {
        ok := WriteByte(data[i], was, start, data[..i]);
        if !ok { return; }
        assert data[..i + 1] == data[..i] + [data[i]];
        i := i + 1;
      }
      assert data[..|data|] == data;
      ok := true;
    }

    /** The bytes themselves: copied when the position is on a byte, else shifted in one by one. */
    method WriteRaw(data: seq<byte>) returns (ok: bool)
      requires Valid()
      modifies this`bitIndex, buffer
      ensures Valid()
      ensures ok <==> old(HasRoom(8 * |data|))
      ensures ok ==> Wrote(old(Bits()), old(bitIndex), BytesBits(data))
      ensures !ok ==> Kept(old(Bits()), old(bitIndex))
    {
      var start := bitIndex;
      if start % 8 != 0 {
        ok := WriteOneByOne(data);
      } else {
        ok := SetBitPosition(start + |data| * 8);
        if ok && buffer != null {
          CopyAligned(data, start / 8);
        }
      }
    }

    method CopyAligned(data: seq<byte>, at: nat)
      requires buffer != null && at + |data| <= buffer.Length
      modifies buffer
      ensures Fits(old(Bits()), 8 * at, BytesBits(data))
      ensures Bits() == Splice(old(Bits()), 8 * at, BytesBits(data))
    {
      ghost var was := buffer[..];
      for i := 0 to |data|
        invariant buffer[..] == was[..at] + data[..i] + was[at + i..]
      {
        buffer[at + i] := data[i];
      }
      assert buffer[..] == was[..at] + data + was[at + |data|..];
      CopiedBits(was, at, data);
    }

    /** A byte string or, the same way, a string: its length as varsize, then its bytes. */
    method WriteBytes(data: seq<byte>) returns (ok: bool)
      requires Valid()
      modifies this`bitIndex, buffer
      ensures Valid()
      ensures ok <==> |data| <= VarNum.VARSIZE_MAX && old(HasRoom(|Fields.LengthCode(|data|)| + 8 * |data|))
      ensures ok ==> Wrote(old(Bits()), old(bitIndex), Fields.LengthCode(|data|) + BytesBits(data))
      ensures !ok ==> Kept(old(Bits()), old(bitIndex))
    {
      ok := WriteLength(|data|);
      if !ok { return; }
      ok := WriteRawAfter(data, old(Bits()), old(bitIndex), Fields.LengthCode(|data|));
    }

    method WriteRawAfter(data: seq<byte>, ghost was: seq<bool>, ghost start: nat, ghost prefix: seq<bool>) returns (ok: bool)
      requires Valid() && Wrote(was, start, prefix)
      modifies this`bitIndex, buffer
      ensures Valid()
      ensures ok <==> old(HasRoom(8 * |data|))
      ensures ok ==> Wrote(was, start, prefix + BytesBits(data))
      ensures !ok ==> Kept(was, start)
    {
      ghost var mid, at := Bits(), bitIndex;
      ok := WriteRaw(data);
      if ok { WroteThen(was, start, prefix, mid, at, BytesBits(data)); }
    }

    method WriteLength(n: nat) returns (ok: bool)
      requires Valid()
      modifies this`bitIndex, buffer
      ensures Valid()
      ensures ok <==> n <= VarNum.VARSIZE_MAX && old(HasRoom(|Fields.LengthCode(n)|))
      ensures ok ==> Wrote(old(Bits()), old(bitIndex), Fields.LengthCode(n))
      ensures !ok ==> Kept(old(Bits()), old(bitIndex))
    {
      if n > VarNum.VARSIZE_MAX { return false; }
      VarNum.VarSizeInRange(n);
      ok := WriteVar(VarNum.VarSize, n);
    }

    /** Whole bytes as they are, then the remaining bits from the top of the last byte. */
    method WriteBitBuffer(b: Fields.BitBuffer) returns (ok: bool)
      requires Valid()
      modifies this`bitIndex, buffer
      ensures Valid()
      ensures ok <==> b.bitSize <= VarNum.VARSIZE_MAX && old(HasRoom(|Fields.LengthCode(b.bitSize)| + b.bitSize))
      ensures ok ==> Wrote(old(Bits()), old(bitIndex), Fields.LengthCode(b.bitSize) + b.Bits())
      ensures !ok ==> Kept(old(Bits()), old(bitIndex))
    {
      ok := WriteLength(b.bitSize);
      if !ok { return; }
      ok := WriteBufferAfter(b, old(Bits()), old(bitIndex), Fields.LengthCode(b.bitSize));
    }

    method WriteBufferAfter(b: Fields.BitBuffer, ghost was: seq<bool>, ghost start: nat, ghost prefix: seq<bool>) returns (ok: bool)
      requires Valid() && Wrote(was, start, prefix)
      modifies this`bitIndex, buffer
      ensures Valid()
      ensures ok <==> old(HasRoom(b.bitSize))
      ensures ok ==> Wrote(was, start, prefix + b.Bits())
      ensures !ok ==> Kept(was, start)
    {
      ghost var mid, at := Bits(), bitIndex;
      ok := WriteBufferBits(b);
      if ok { WroteThen(was, start, prefix, mid, at, b.Bits()); }
    }

    method WriteBufferBits(b: Fields.BitBuffer) returns (ok: bool)
      requires Valid()
      modifies this`bitIndex, buffer
      ensures Valid()
      ensures ok <==> old(HasRoom(b.bitSize))
      ensures ok ==> Wrote(old(Bits()), old(bitIndex), b.Bits())
      ensures !ok ==> Kept(old(Bits()), old(bitIndex))
    {
      var n, rest := b.bitSize / 8, b.bitSize % 8;
      ok := WriteRaw(b.bytes[..n]);
      if !ok { return; }
      if rest > 0 {
        ok := WriteRest(b.bytes[n], rest, old(Bits()), old(bitIndex), b.bytes[..n]);
        Fields.BytesThenTopBits(b, n, rest);
      } else {
        Fields.OnlyWholeBytes(b);
      }
    }

    /** The top `rest` bits of `last`, after the whole bytes `done`. */
    method WriteRest(last: byte, rest: nat, ghost was: seq<bool>, ghost start: nat, ghost done: seq<byte>) returns (ok: bool)
      requires Valid() && 1 <= rest < 8 && Wrote(was, start, BytesBits(done))
      modifies this`bitIndex, buffer
      ensures Valid()
      ensures ok <==> old(HasRoom(rest))
      ensures ok ==> Wrote(was, start, BytesBits(done) + ToBits(rest, Shr(last, 8 - rest)))
      ensures !ok ==> Kept(was, start)
    {
      SmallPowers();
      ShrBound(last, rest, 8 - rest);
      ok := WriteMore(Shr(last, 8 - rest), rest, was, start, BytesBits(done));
    }

    /** Any field. */
    method WriteField(f: Fields.Field) returns (ok: bool)
      requires Valid()
      modifies this`bitIndex, buffer
      ensures Valid()
      ensures ok <==> old(HasRoom(|Fields.Code(f)|))
      ensures ok ==> Wrote(old(Bits()), old(bitIndex), Fields.Code(f))
      ensures !ok ==> Kept(old(Bits()), old(bitIndex))
    {
      match f
      case Unsigned(n, u) => ok := WriteUnsignedBits64(u, n);
      case Signed(n, i) => ok := WriteSignedBits64(i, n);
      case Flag(b) => ok := WriteBool(b);
      case Var(k, v) =>
        VarNum.SignOfRange(k, v);
        ok := WriteVar(k, v);
      case Bytes(d) => ok := WriteBytes(d);
      case BitField(b) => ok := WriteBitBuffer(b);
    }
  }
}
