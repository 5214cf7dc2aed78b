/** The bit stream reader with its 64-bit look-ahead cache. */
module BitReader {
  import opened Bits
  import opened Wire
  import VarNum
  import Fields

  /** The bytes at the front of the cache: the most significant byte first. */
  function Parse(s: seq<byte>): nat {
    if s == [] then 0 else Shl(Parse(s[..|s| - 1]), 8) + s[|s| - 1]
  }

  lemma {:induction false} ParseBits(s: seq<byte>)
    ensures Parse(s) == FromBits(BytesBits(s))
  {
    if s != [] {
      var front, last := s[..|s| - 1], s[|s| - 1];
      ParseBits(front);
      assert s == front + [last];
      BytesBitsConcat(front, [last]);
      BytesBitsOne(last);
      ByteFromBits(last);
      FromConcat(BytesBits(front), ToBits(8, last));
    }
  }

  /** Shifting the unused end of the bits from `a` to `b` out keeps the first `got` of them. */
  lemma TopOf(all: seq<bool>, a: nat, b: nat, got: nat) returns (v: nat)
    requires a + got <= b <= |all|
    ensures v == Shr(FromBits(all[a..b]), b - a - got)
    ensures v < Pow2(got) && ToBits(got, v) == all[a..a + got]
  {
    var s := all[a..a + got];
    assert all[a..b] == s + all[a + got..b];
    FromSplit(s, all[a + got..b]);
    FromBitsBound(s);
    ToFrom(s);
    v := Shr(FromBits(all[a..b]), b - a - got);
  }

  lemma WordAt(buffer: seq<byte>, at: nat, n: nat)
    requires at + n <= |buffer|
    ensures Parse(buffer[at..at + n]) == FromBits(BytesBits(buffer)[8 * at..8 * (at + n)])
  {
    ParseBits(buffer[at..at + n]);
    BytesBitsSlice(buffer, at, at + n);
  }

  /** What a load of the `n` bytes at `at` leaves in the cache: `got` bits. */
  lemma Loaded(buffer: seq<byte>, at: nat, n: nat, got: nat) returns (v: nat)
    requires got <= 8 * n && at + n <= |buffer|
    ensures v == Shr(Parse(buffer[at..at + n]), 8 * n - got)
    ensures v < Pow2(got) && ToBits(got, v) == BytesBits(buffer)[8 * at..8 * at + got]
  {
    WordAt(buffer, at, n);
    v := TopOf(BytesBits(buffer), 8 * at, 8 * (at + n), got);
  }

  /** A read inside the cache, which holds the bits at `from`: its top `n` bits, and what
      stays behind them. */
  lemma FromCache(bits: seq<bool>, from: nat, have: nat, cache: nat, n: nat, left: nat)
    requires n + left == have && from + have <= |bits| && ToBits(have, cache) == bits[from..from + have]
    ensures Low(Shr(cache, left), n) == FromBits(bits[from..from + n])
    ensures ToBits(left, cache) == bits[from + n..from + n + left]
  {
    ToBitsSplit(n, left, cache);
    FromTo(n, Shr(cache, left));
    var held, front, back := bits[from..from + have], ToBits(n, Shr(cache, left)), ToBits(left, cache);
    assert held[..n] == front && held[n..] == back;
    assert bits[from..from + n] == held[..n] && bits[from + n..from + n + left] == held[n..];
  }

  /** A read that uses up one cache and goes on in the next. */
  lemma Spanning(held: seq<bool>, have: nat, cache: nat, tail: seq<bool>, rest: nat)
    requires ToBits(have, cache) == held && |tail| == rest
    ensures Shl(Low(cache, have), rest) + FromBits(tail) == FromBits(held + tail)
  {
    FromTo(have, cache);
    FromConcat(held, tail);
  }

  lemma {:induction false} ShlZero(n: nat)
    ensures Shl(0, n) == 0
  {
    if n != 0 { ShlZero(n - 1); }
  }

  // ---- a reader as three numbers ----------------------------------------

  /** The cache holds the `have` bits at `from`; the reader says it is at `index`. */
  datatype Track = Track(from: nat, have: nat, index: nat)

  predicate InBounds(size: nat, t: Track) { t.from + t.have <= size && t.from <= t.index && t.have <= 64 }

  /** The cache holds the next unread bits, up to a byte or up to the end. */
  predicate InStep(size: nat, t: Track) { t.from == t.index && ((t.index + t.have) % 8 == 0 || t.index + t.have == size) }

  /** How many bits a load at `at` caches. */
  function LoadAt(size: nat, at: nat): (n: nat)
    requires at <= size
    ensures n <= 64 && at + n <= size
  {
    if at + 64 <= size then 64 else size - at
  }

  /** Where a load at `at` takes its bits from. */
  function ByteOf(at: nat): (p: nat)
    ensures p <= at && p % 8 == 0 && (at % 8 == 0 <==> p == at)
  {
    at / 8 * 8
  }

  /** A read of `n` bits: out of the cache, or out of it and a new load; one that runs into the
      end moves over the cached bits and leaves them in the cache. */
  function Taken(size: nat, t: Track, n: nat): (r: Track)
    requires InBounds(size, t) && n <= 64
    ensures InBounds(size, r)
  {
    if n <= t.have then Track(t.from + n, t.have - n, t.index + n)
    else
      var at, rest := t.index + t.have, n - t.have;
      if at + rest > size then Track(t.from, t.have, at)
      else Track(ByteOf(at) + rest, LoadAt(size, at) - rest, at + rest)
  }

  /** The bits in the cache. */
  function Head(bits: seq<bool>, t: Track): (s: seq<bool>)
    requires InBounds(|bits|, t)
    ensures |s| == t.have
  {
    bits[t.from..t.from + t.have]
  }

  /** The first bits that a load at `at` gives. */
  function Stretch(bits: seq<bool>, at: nat, rest: nat): (s: seq<bool>)
    requires at + rest <= |bits|
    ensures |s| == rest
  {
    bits[ByteOf(at)..ByteOf(at) + rest]
  }

  function Got(bits: seq<bool>, t: Track, n: nat): Read<nat>
    requires InBounds(|bits|, t) && n <= 64
  {
    if n <= t.have then Ok(FromBits(bits[t.from..t.from + n]), t.index + n)
    else
      var at, rest := t.index + t.have, n - t.have;
      if at + rest > |bits| then Failed
      else Ok(FromBits(Head(bits, t) + Stretch(bits, at, rest)), at + rest)
  }

  lemma GotFits(bits: seq<bool>, t: Track, n: nat)
    requires InBounds(|bits|, t) && n <= 64
    ensures Got(bits, t, n).Ok? ==> Got(bits, t, n).value < Pow2(n) && Got(bits, t, n).pos == Taken(|bits|, t, n).index
  {
    if n <= t.have {
      WithinAt(bits, t, n);
      ValueFits(bits[t.from..t.from + n], n);
    } else {
      var at, rest := t.index + t.have, n - t.have;
      AcrossAt(bits, t, n, at, rest);
      if at + rest <= |bits| { ValueFits(Head(bits, t) + Stretch(bits, at, rest), n); }
    }
  }

  lemma ValueFits(s: seq<bool>, n: nat)
    requires |s| == n
    ensures FromBits(s) < Pow2(n)
  {
    FromBitsBound(s);
  }

  /** A read that the cache alone does not serve. */
  lemma AcrossAt(bits: seq<bool>, t: Track, n: nat, at: nat, rest: nat)
    requires InBounds(|bits|, t) && t.have < n <= 64 && at == t.index + t.have && rest == n - t.have
    ensures at + rest > |bits| ==> Taken(|bits|, t, n) == Track(t.from, t.have, at) && Got(bits, t, n) == Failed
    ensures at + rest <= |bits| ==> Taken(|bits|, t, n) == Track(ByteOf(at) + rest, LoadAt(|bits|, at) - rest, at + rest)
    ensures at + rest <= |bits| ==> Got(bits, t, n) == Ok(FromBits(Head(bits, t) + Stretch(bits, at, rest)), at + rest)
  {}

  /** A read that the cache serves. */
  lemma WithinAt(bits: seq<bool>, t: Track, n: nat)
    requires InBounds(|bits|, t) && n <= t.have
    ensures Taken(|bits|, t, n) == Track(t.from + n, t.have - n, t.index + n)
    ensures Got(bits, t, n) == Ok(FromBits(bits[t.from..t.from + n]), t.index + n)
  {}

  /** The value of one that it does not serve, put together. */
  lemma AcrossValue(bits: seq<bool>, t: Track, n: nat, at: nat, rest: nat, cache: nat, low: nat, value: nat)
    requires InBounds(|bits|, t) && t.have < n <= 64 && at == t.index + t.have && rest == n - t.have && at + rest <= |bits|
    requires ToBits(t.have, cache) == Head(bits, t) && low == FromBits(Stretch(bits, at, rest))
    requires value == if rest < 64 then Shl(Low(cache, t.have), rest) else Low(cache, t.have)
    ensures Got(bits, t, n) == Ok(value + low, at + rest)
  {
    ShlZero(rest);
    Spanning(Head(bits, t), t.have, cache, Stretch(bits, at, rest), rest);
    AcrossAt(bits, t, n, at, rest);
  }

  /** In step, a read returns the next bits; if it does not fail the reader stays in step. */
  lemma ReadsInStep(bits: seq<bool>, t: Track, n: nat)
    requires InBounds(|bits|, t) && InStep(|bits|, t) && n <= 64
    ensures Got(bits, t, n) == ReadUnsigned(bits, t.index, n)
    ensures Got(bits, t, n).Ok? ==> InStep(|bits|, Taken(|bits|, t, n))
  {
    if n > t.have && t.index + n <= |bits| {
      var at := t.index + t.have;
      assert bits[t.index..t.index + n] == Head(bits, t) + Stretch(bits, at, n - t.have);
    }
  }

  /** A position change: to the byte, with nothing cached, and on by a read of the rest. */
  function Sought(size: nat, position: nat): (t: Track)
    requires position <= size
    ensures InBounds(size, t)
  {
    var p := ByteOf(position);
    if p == position then Track(p, 0, p) else Taken(size, Track(p, 0, p), position - p)
  }

  lemma SoughtInStep(size: nat, position: nat)
    requires position <= size
    ensures position - ByteOf(position) < 8
    ensures InStep(size, Sought(size, position)) && Sought(size, position).index == position
  {}

  lemma BytesOkIff(bits: seq<bool>, pos: nat, n: nat)
    ensures Fields.ReadBytes(bits, pos, n).Ok? <==> n == 0 || pos + 8 * n <= |bits|
    ensures pos + 8 * n <= |bits| ==> Fields.ReadBytes(bits, pos, n).pos == pos + 8 * n
    decreases n
  {
    if n != 0 && pos + 8 <= |bits| { BytesOkIff(bits, pos + 8, n - 1); }
  }

  /** Bytes copied out of the buffer are the bytes a bit-by-bit read returns. */
  lemma CopyIsRead(buffer: seq<byte>, size: nat, at: nat, n: nat, pos: nat, end: nat)
    requires size <= 8 * |buffer| && pos == 8 * at <= size && end == 8 * (at + n)
    ensures Fields.ReadBytes(BytesBits(buffer)[..size], pos, n) == if end <= size then Ok(buffer[at..at + n], end) else Failed
  {
    BytesOkIff(BytesBits(buffer)[..size], pos, n);
    if end <= size {
      BytesLieAt(buffer, size, at, n, pos, end, buffer[at..at + n]);
      Fields.BytesBack(BytesBits(buffer)[..size], pos, buffer[at..at + n]);
    }
  }

  lemma BytesLieAt(buffer: seq<byte>, size: nat, at: nat, n: nat, pos: nat, end: nat, d: seq<byte>)
    requires pos == 8 * at && end == 8 * (at + n) <= size <= 8 * |buffer| && d == buffer[at..at + n]
    ensures At(BytesBits(buffer)[..size], pos, BytesBits(d))
  {
    BytesBitsSlice(buffer, at, at + n);
    assert BytesBits(buffer)[..size][pos..end] == BytesBits(buffer)[pos..end];
  }

  /** What a read of bytes returns behind those that have been read. */
  function Behind(value: seq<byte>, r: Read<seq<byte>>): Read<seq<byte>> {
    if r.Ok? then Ok(value + r.value, r.pos) else Failed
  }

  lemma BehindNothing(r: Read<seq<byte>>)
    ensures Behind([], r) == r
  {
    if r.Ok? { assert [] + r.value == r.value; }
  }

  lemma NoByteMore(bits: seq<bool>, value: seq<byte>, pos: nat)
    ensures Behind(value, Fields.ReadBytes(bits, pos, 0)) == Ok(value, pos)
  {
    assert value + [] == value;
  }

  lemma OneByteMore(bits: seq<bool>, value: seq<byte>, more: seq<byte>, pos: nat, next: nat, n: nat, left: nat, b: byte)
    requires n == left + 1 && next == pos + 8 && more == value + [b] && ReadUnsigned(bits, pos, 8) == Ok(b, next)
    ensures Behind(value, Fields.ReadBytes(bits, pos, n)) == Behind(more, Fields.ReadBytes(bits, next, left))
  {
    var rest := Fields.ReadBytes(bits, next, left);
    if rest.Ok? { assert value + ([b] + rest.value) == (value + [b]) + rest.value; }
  }

  /** The value of a machine word read as signed. */
  function AsInt64(w: nat): int { if w >= 0x8000_0000_0000_0000 then w - U64 else w }

  /** A read taken as two's complement. */
  function InTwos(n: nat, u: Read<nat>): Read<int>
    requires n > 0
  {
    if u.Ok? then Ok(Decode2s(n, u.value), u.pos) else Failed
  }

  /** Sign extension in 64-bit arithmetic is two's complement in `n` bits. */
  lemma SignExtension(n: nat, w: nat, extended: nat)
    requires 1 <= n <= 64 && w < Pow2(n)
    requires extended == if n < 64 && w >= Pow2(n - 1) then (w + U64 - Pow2(n)) % U64 else w
    ensures AsInt64(extended) == Decode2s(n, w)
  {
    WordPowers();
    if n < 64 {
      Pow2Monotone(n, 63);
    }
  }

  class BitStreamReader {
    const buffer: seq<byte>
    const bufferBitSize: nat
    var cache: nat
    var cacheNumBits: nat
    var bitIndex: nat
    /** Where in the buffer the cached bits lie. */
    ghost var from: nat

    ghost function View(): Track
      reads this
    {
      Track(from, cacheNumBits, bitIndex)
    }

    ghost function Bits(): (s: seq<bool>)
      requires bufferBitSize <= 8 * |buffer|
      ensures |s| == bufferBitSize
    {
      BytesBits(buffer)[..bufferBitSize]
    }

    /** The bits in the cache. */
    ghost function Cached(): (s: seq<bool>)
      reads this
      ensures |s| == cacheNumBits
    {
      ToBits(cacheNumBits, cache)
    }

    /** Holds in every state, after a failed read too. */
    ghost predicate Sound()
      reads this
    {
      && (bufferBitSize + 7) / 8 <= |buffer| && cache < U64
      && InBounds(bufferBitSize, View()) && Cached() == Bits()[from..from + cacheNumBits]
    }

    /** The cache holds exactly the next unread bits. */
    ghost predicate Valid()
      reads this
    {
      Sound() && InStep(bufferBitSize, View())
    }

    constructor (buffer: seq<byte>, bufferBitSize: nat)
      requires (bufferBitSize + 7) / 8 <= |buffer|
      ensures this.buffer == buffer && this.bufferBitSize == bufferBitSize
      ensures Valid() && View() == Track(0, 0, 0)
    {
      this.buffer := buffer;
      this.bufferBitSize := bufferBitSize;
      cache, cacheNumBits, bitIndex, from := 0, 0, 0, 0;
    }

    /** The bits of the buffer that count are its bytes' bits. */
    lemma InBuffer(a: nat, b: nat)
      requires a <= b <= bufferBitSize <= 8 * |buffer|
      ensures BytesBits(buffer)[a..b] == Bits()[a..b]
    {
      assert forall i :: a <= i < b ==> BytesBits(buffer)[i] == Bits()[i];
    }

    /** Parses `n` whole bytes and keeps the first `got` bits of them. */
    method FillCache(byteIndex: nat, n: nat, got: nat)
      requires got <= 8 * n && got <= 64 && byteIndex + n <= |buffer|
      modifies this`cache, this`cacheNumBits
      ensures cacheNumBits == got && cache < U64
      ensures Cached() == BytesBits(buffer)[8 * byteIndex..8 * byteIndex + got]
    {
      ghost var v := Loaded(buffer, byteIndex, n, got);
      cache := Parse(buffer[byteIndex..byteIndex + n]);
      cacheNumBits := got;
      cache := Shr(cache, 8 * n - got);
      WordPowers();
      Pow2Monotone(got, 64);
    }

    /** Up to 64 bits from the byte at the position; fails if fewer than `numBits` are left. */
    method LoadCacheNext(numBits: nat) returns (ok: bool)
      requires Sound() && 1 <= numBits <= 64
      modifies this`cache, this`cacheNumBits, this`from
      ensures Sound() && (ok <==> bitIndex + numBits <= bufferBitSize)
      ensures ok ==> numBits <= cacheNumBits && View() == Track(ByteOf(bitIndex), LoadAt(bufferBitSize, bitIndex), bitIndex)
      ensures !ok ==> unchanged(this)
    {
      var byteIndex := bitIndex / 8;
      if bufferBitSize >= bitIndex + 64 {
        FillCache(byteIndex, 8, 64);
      } else {
        if bitIndex + numBits > bufferBitSize {
          return false;
        }
        var left := bufferBitSize - bitIndex;
        var alignedNumBytes := (left + 7) / 8;
        FillCache(byteIndex, alignedNumBytes, left);
      }
      from := 8 * byteIndex;
      InBuffer(from, from + cacheNumBits);
      return true;
    }

    /** The top `n` bits of the cache. */
    method TakeFromCache(n: nat) returns (value: nat)
      requires Sound() && n <= cacheNumBits
      modifies this`cacheNumBits, this`bitIndex, this`from
      ensures Sound() && View() == Track(old(from) + n, old(cacheNumBits) - n, old(bitIndex) + n)
      ensures value == FromBits(Bits()[old(from)..old(from) + n])
    {
      var left := cacheNumBits - n;
      FromCache(Bits(), from, cacheNumBits, cache, n, left);
      value := Low(Shr(cache, left), n);
      cacheNumBits := left;
      bitIndex := bitIndex + n;
      from := from + n;
    }

    /** What a read of `n` bits returns and leaves, in any state. */
    twostate predicate DidRead(new r: Read<nat>, n: nat)
      requires old(Sound()) && n <= 64
      reads this
    {
      View() == Taken(bufferBitSize, old(View()), n) && r == Got(Bits(), old(View()), n)
    }

    twostate predicate DidReadSigned(new r: Read<int>, n: nat)
      requires old(Sound()) && 1 <= n <= 64
      reads this
    {
      View() == Taken(bufferBitSize, old(View()), n) && r == InTwos(n, Got(Bits(), old(View()), n))
    }

    /** A fresh cache, and the first `rest` bits of it. */
    method RefillAndTake(rest: nat) returns (ok: bool, low: nat)
      requires Sound() && 1 <= rest <= 64
      modifies this
      ensures Sound() && (ok <==> old(bitIndex) + rest <= bufferBitSize)
      ensures var at := old(bitIndex);
              ok ==> View() == Track(ByteOf(at) + rest, LoadAt(bufferBitSize, at) - rest, at + rest)
                     && low == FromBits(Stretch(Bits(), at, rest))
      ensures !ok ==> unchanged(this)
    {
      ok := LoadCacheNext(rest);
      low := 0;
      if ok { low := TakeFromCache(rest); }
    }

    /** The cache is used up and filled again. */
    method ReadAcross(numBits: nat) returns (r: Read<nat>)
      requires Sound() && cacheNumBits < numBits <= 64
      modifies this
      ensures Sound() && DidRead(r, numBits)
    {
      ghost var bits, was, word := Bits(), View(), cache;
      var value := Low(cache, cacheNumBits);
      bitIndex := bitIndex + cacheNumBits;
      ghost var at := bitIndex;
      var rest := numBits - cacheNumBits;
      AcrossAt(bits, was, numBits, at, rest);
      var ok, low := RefillAndTake(rest);
      if !ok { return Failed; }
      if rest < 64 {
        value := Shl(value, rest);
      }
      AcrossValue(bits, was, numBits, at, rest, word, low, value);
      return Ok(value + low, bitIndex);
    }

    /** Unchecked read: what is cached first, then from a freshly loaded cache. */
    method ReadUnsignedBitsImpl(numBits: nat) returns (r: Read<nat>)
      requires Sound() && 1 <= numBits <= 64
      modifies this
      ensures Sound() && DidRead(r, numBits)
      ensures old(Valid()) ==> r == ReadUnsigned(Bits(), old(bitIndex), numBits) && (r.Ok? ==> Valid() && r.pos == bitIndex)
    {
      ghost var was, inStep := View(), Valid();
      if cacheNumBits < numBits {
        r := ReadAcross(numBits);
      } else {
        WithinAt(Bits(), was, numBits);
        var value := TakeFromCache(numBits);
        r := Ok(value, bitIndex);
      }
      if inStep { ReadsInStep(Bits(), was, numBits); }
    }

    /** Reads with the width checked; a width out of range fails before anything is touched. */
    method ReadUnsignedBits64(numBits: nat) returns (r: Read<nat>)
      requires Sound()
      modifies this
      ensures Sound()
      ensures if 1 <= numBits <= 64 then DidRead(r, numBits) else r == Failed && unchanged(this)
      ensures old(Valid()) && 1 <= numBits <= 64 ==>
                r == ReadUnsigned(Bits(), old(bitIndex), numBits) && (r.Ok? ==> Valid() && r.pos == bitIndex)
    {
      if numBits == 0 || numBits > 64 { return Failed; }
      r := ReadUnsignedBitsImpl(numBits);
    }

    method ReadUnsignedBits32(numBits: nat) returns (r: Read<nat>)
      requires Sound()
      modifies this
      ensures Sound()
      ensures if 1 <= numBits <= 32 then DidRead(r, numBits) else r == Failed && unchanged(this)
      ensures old(Valid()) && 1 <= numBits <= 32 ==>
                r == ReadUnsigned(Bits(), old(bitIndex), numBits) && (r.Ok? ==> Valid() && r.pos == bitIndex)
    {
      if numBits == 0 || numBits > 32 { return Failed; }
      r := ReadUnsignedBitsImpl(numBits);
    }

    method ReadSignedBits64(numBits: nat) returns (r: Read<int>)
      requires Sound()
      modifies this
      ensures Sound()
      ensures if 1 <= numBits <= 64 then DidReadSigned(r, numBits) else r == Failed && unchanged(this)
      ensures old(Valid()) ==> r == if 1 <= numBits <= 64 then ReadSigned(Bits(), old(bitIndex), numBits) else Failed
      ensures old(Valid()) && r.Ok? ==> Valid() && r.pos == bitIndex
    {
      if numBits == 0 || numBits > 64 { return Failed; }
      ghost var was := View();
      var u := ReadUnsignedBitsImpl(numBits);
      if u.Failed? { return Failed; }
      var value := u.value;
      GotFits(Bits(), was, numBits);
      if numBits < 64 && value >= Pow2(numBits - 1) {
        value := (value + U64 - Pow2(numBits)) % U64;
      }
      SignExtension(numBits, u.value, value);
      return Ok(AsInt64(value), u.pos);
    }

    method ReadByte() returns (ok: bool, b: byte)
      requires Valid()
      modifies this
      ensures Sound() && (ok ==> Valid() && bitIndex == old(bitIndex) + 8)
      ensures ReadUnsigned(Bits(), old(bitIndex), 8) == if ok then Ok(b, bitIndex) else Failed
    {
      SmallPowers();
      var r := ReadUnsignedBitsImpl(8);
      ok, b := r.Ok?, if r.Ok? then r.value else 0;
    }

    /** Drops the cache and goes to a byte, then skips what is left; a position behind the
        end is refused. Whatever the cache held, the reader is in step again. */
    method SetBitPosition(position: nat) returns (ok: bool)
      requires Sound()
      modifies this
      ensures Sound() && (ok <==> position <= bufferBitSize)
      ensures ok ==> Valid() && bitIndex == position && View() == Sought(bufferBitSize, position)
      ensures !ok ==> unchanged(this)
    {
      if position > bufferBitSize { return false; }
      bitIndex := ByteOf(position);
      cacheNumBits := 0;
      from := bitIndex;
      SoughtInStep(bufferBitSize, position);
      var skip := position - bitIndex;
      if skip != 0 {
        var r := ReadUnsignedBits32(skip);
      }
      return true;
    }

    /** Reads the missing bits and drops them, if there are any. */
    method AlignTo(alignment: nat) returns (ok: bool)
      requires Sound() && alignment >= 1
      modifies this
      ensures Sound()
      ensures var skip := AlignSkip(alignment, old(bitIndex));
              if 1 <= skip <= 64 then View() == Taken(bufferBitSize, old(View()), skip) && (ok <==> Got(Bits(), old(View()), skip).Ok?)
              else unchanged(this) && (ok <==> AlignWorks(alignment, old(bitIndex)))
      ensures var skip := AlignSkip(alignment, old(bitIndex));
              old(Valid()) ==>
                && (ok <==> AlignWorks(alignment, old(bitIndex)) && old(bitIndex) + skip <= bufferBitSize)
                && (ok ==> Valid() && bitIndex == old(bitIndex) + skip)
    {
      var offset := bitIndex % alignment;
      SkipOf(alignment, bitIndex, offset);
      if offset != 0 {
        var skip := (alignment - offset) % 256;
        var r := ReadUnsignedBits64(skip);
        return r.Ok?;
      }
      return true;
    }

    /** The bytes of a variable-length number behind its first one. */
    method ReadVarTail(k: VarNum.VarKind, first: nat) returns (r: Read<nat>)
      requires Valid()
      modifies this
      ensures Sound() && (r.Ok? ==> Valid() && r.pos == bitIndex)
      ensures r == VarNum.DecodeTail(k, 1, first, Bits(), old(bitIndex))
    {
      var i, result: nat := 1, first;
      while true
        invariant 1 <= i < k.MaxBytes() && Valid()
        invariant VarNum.DecodeTail(k, 1, first, Bits(), old(bitIndex)) == VarNum.DecodeTail(k, i, result, Bits(), bitIndex)
        decreases k.MaxBytes() - i
      {
        ghost var at := bitIndex;
        var ok, b := ReadByte();
        if !ok { return Failed; }
        var after := VarNum.Extended(k, i, result, b);
        VarNum.TailStep(k, i, result, Bits(), at, b, i + 1, after, bitIndex);
        result, i := after, i + 1;
        if i == k.MaxBytes() || !VarNum.TopBit(b) { return Ok(result, bitIndex); }
      }
    }

    /** What the bytes behind the first one, if any, make of its payload. */
    method ReadVarRest(k: VarNum.VarKind, b: byte) returns (r: Read<nat>)
      requires Valid()
      modifies this
      ensures Sound() && (r.Ok? ==> Valid() && r.pos == bitIndex)
      ensures r == if VarNum.FirstHasNext(k, b) then VarNum.DecodeTail(k, 1, VarNum.FirstPayload(k, b), Bits(), old(bitIndex))
                   else Ok(VarNum.FirstPayload(k, b), old(bitIndex))
    {
      if !VarNum.FirstHasNext(k, b) { return Ok(VarNum.FirstPayload(k, b), bitIndex); }
      r := ReadVarTail(k, VarNum.FirstPayload(k, b));
    }

    method ReadVar(k: VarNum.VarKind) returns (r: Read<int>)
      requires Valid()
      modifies this
      ensures Sound() && (r.Ok? ==> Valid() && r.pos == bitIndex)
      ensures r == VarNum.Decode(k, Bits(), old(bitIndex))
    {
      var begin := bitIndex;
      var ok, b := ReadByte();
      if !ok { return Failed; }
      ghost var next := bitIndex;
      var rest := ReadVarRest(k, b);
      VarNum.DecodeAfter(k, Bits(), begin, b, next, rest);
      if rest.Failed? { return Failed; }
      r := VarNum.Assemble(k, k.Signed() && VarNum.TopBit(b), rest.value, rest.pos - begin, rest.pos);
    }

    method ReadOneByOne(n: nat) returns (r: Read<seq<byte>>)
      requires Valid() && n > 0
      modifies this
      ensures Sound() && (r.Ok? ==> Valid() && r.pos == bitIndex)
      ensures r == Fields.ReadBytes(Bits(), old(bitIndex), n)
    {
      ghost var bits, whole := Bits(), Fields.ReadBytes(Bits(), bitIndex, n);
      BehindNothing(whole);
      var value: seq<byte> := [];
      var left := n;
      while left > 0
        invariant Valid() && whole == Behind(value, Fields.ReadBytes(bits, bitIndex, left))
      {
        ghost var at := bitIndex;
        var ok, b := ReadByte();
        if !ok { return Failed; }
        var rest, more := left - 1, value + [b];
        OneByteMore(bits, value, more, at, bitIndex, left, rest, b);
        value, left := more, rest;
      }
      NoByteMore(bits, value, bitIndex);
      r := Ok(value, bitIndex);
    }

    method CopyBytes(n: nat) returns (r: Read<seq<byte>>)
      requires Valid() && bitIndex % 8 == 0
      modifies this
      ensures Sound() && (r.Ok? ==> Valid() && r.pos == bitIndex)
      ensures r == Fields.ReadBytes(Bits(), old(bitIndex), n)
    {
      var at := bitIndex / 8;
      var end := 8 * (at + n);
      CopyIsRead(buffer, bufferBitSize, at, n, bitIndex, end);
      var ok := SetBitPosition(end);
      if !ok { return Failed; }
      r := Ok(buffer[at..at + n], end);
    }

    /** `n` bytes: copied out of the buffer when the position is on a byte, else read one by one. */
    method ReadRaw(n: nat) returns (r: Read<seq<byte>>)
      requires Valid()
      modifies this
      ensures Sound() && (r.Ok? ==> Valid() && r.pos == bitIndex)
      ensures r == Fields.ReadBytes(Bits(), old(bitIndex), n)
    {
      if bitIndex % 8 == 0 {
        r := CopyBytes(n);
      } else if n == 0 {
        r := Ok([], bitIndex);
      } else {
        r := ReadOneByOne(n);
      }
    }

    method ReadBytes() returns (r: Read<seq<byte>>)
      requires Valid()
      modifies this
      ensures Sound() && (r.Ok? ==> Valid() && r.pos == bitIndex)
      ensures Fields.ReadField(Fields.AsBytes, Bits(), old(bitIndex)) == if r.Ok? then Ok(Fields.Bytes(r.value), r.pos) else Failed
    {
      var len := ReadVar(VarNum.VarSize);
      if len.Failed? { return Failed; }
      r := ReadRaw(len.value);
    }

    method ReadBitBuffer() returns (r: Read<Fields.BitBuffer>)
      requires Valid()
      modifies this
      ensures Sound() && (r.Ok? ==> Valid() && r.pos == bitIndex)
      ensures Fields.ReadField(Fields.AsBitField, Bits(), old(bitIndex)) == if r.Ok? then Ok(Fields.BitField(r.value), r.pos) else Failed
    {
      var size := ReadVar(VarNum.VarSize);
      if size.Failed? { return Failed; }
      r := ReadBufferBits(size.value);
    }

    /** Whole bytes, then the rest at the top of a last one. */
    method ReadBufferBits(bitSize: nat) returns (r: Read<Fields.BitBuffer>)
      requires Valid()
      modifies this
      ensures Sound() && (r.Ok? ==> Valid() && r.pos == bitIndex)
      ensures r == Fields.ReadBitBuffer(Bits(), old(bitIndex), bitSize)
    {
      var numRestBits := bitSize % 8;
      var whole := ReadRaw(bitSize / 8);
      if whole.Failed? { return Failed; }
      if numRestBits > 0 {
        var rest := ReadUnsignedBits32(numRestBits);
        if rest.Failed? { return Failed; }
        r := Ok(Fields.WithRest(whole.value, bitSize, rest.value), bitIndex);
      } else {
        r := Ok(Fields.BitBuffer(whole.value, bitSize), bitIndex);
      }
    }

    /** Any field. */
    method ReadField(shape: Fields.Shape) returns (r: Read<Fields.FieldData>)
      requires Valid()
      modifies this
      ensures Sound() && (r.Ok? ==> Valid() && r.pos == bitIndex)
      ensures r == Fields.ReadField(shape, Bits(), old(bitIndex))
    {
      match shape
      case AsUnsigned(n) =>
        var u := ReadUnsignedBits64(n);
        r := if u.Ok? then Ok(Fields.Unsigned(n, u.value), u.pos) else Failed;
      case AsSigned(n) =>
        var i := ReadSignedBits64(n);
        r := if i.Ok? then Ok(Fields.Signed(n, i.value), i.pos) else Failed;
      case AsFlag =>
        var u := ReadUnsignedBitsImpl(1);
        r := if u.Ok? then Ok(Fields.Flag(u.value != 0), u.pos) else Failed;
      case AsVar(k) =>
        var v := ReadVar(k);
        r := if v.Ok? then Ok(Fields.Var(k, v.value), v.pos) else Failed;
      case AsBytes =>
        var d := ReadBytes();
        r := if d.Ok? then Ok(Fields.Bytes(d.value), d.pos) else Failed;
      case AsBitField =>
        var b := ReadBitBuffer();
        r := if b.Ok? then Ok(Fields.BitField(b.value), b.pos) else Failed;
    }
  }
}
