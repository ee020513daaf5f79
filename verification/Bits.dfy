/** Bytes, bits and the two bit buffers of the codec (common/src/huffman_encoding.c).

    A `Byte` is the unsigned view of the C `char`; bit 7 is written and read first. */
module Bits {

  /** The range of a C `int`. */
  const INT_MIN: int := -0x8000_0000
  const INT_MAX: int := 0x7FFF_FFFF

  type Byte = b: int | 0 <= b < 256

  function Pow2(e: nat): (p: nat)
    ensures p >= 1
  {
    if e == 0 then 1 else 2 * Pow2(e - 1)
  }

  /** 2^pos inside one byte. */
  function Mask(pos: int): (m: int)
    requires 0 <= pos < 8
    ensures 1 <= m <= 128
  {
    if pos == 0 then 1 else if pos == 1 then 2 else if pos == 2 then 4 else if pos == 3 then 8
    else if pos == 4 then 16 else if pos == 5 then 32 else if pos == 6 then 64 else 128
  }

  /** The macro CHECK_BIT. */
  predicate CheckBit(v: nat, pos: int)
    requires 0 <= pos < 8
  {
    v / Mask(pos) % 2 == 1
  }

  /** `byte |= bit << pos`. */
  function OrBit(b: Byte, pos: int, bit: bool): (r: int)
    requires 0 <= pos < 8
  {
    if bit && !CheckBit(b, pos) then b + Mask(pos) else b
  }

  function BitAt(bits: seq<bool>, i: nat): (v: int)
    ensures v == 0 || v == 1
  {
    if i < |bits| && bits[i] then 1 else 0
  }

  /** At most eight bits, first bit highest, missing low bits zero. */
  function PackByte(bits: seq<bool>): Byte
    requires |bits| <= 8
  {
    128 * BitAt(bits, 0) + 64 * BitAt(bits, 1) + 32 * BitAt(bits, 2) + 16 * BitAt(bits, 3)
    + 8 * BitAt(bits, 4) + 4 * BitAt(bits, 5) + 2 * BitAt(bits, 6) + BitAt(bits, 7)
  }

  /** The eight bits `write_byte` emits for an int: its low byte, bit 7 first. */
  function ByteBits(v: nat): (bits: seq<bool>)
    ensures |bits| == 8
  {
    seq(8, i requires 0 <= i < 8 => CheckBit(v, 7 - i))
  }

  lemma ByteBitsGrow(v: nat, n: nat)
    requires n < 8
    ensures ByteBits(v)[..n + 1] == ByteBits(v)[..n] + [CheckBit(v, 7 - n)]
  {
    hide CheckBit;
  }

  function QuotientBit(v: nat, m: int): int
    requires m > 0
  {
    v / m % 2
  }

  lemma QuotientBits(b0: int, b1: int, b2: int, b3: int, b4: int, b5: int, b6: int, b7: int, v: nat)
    requires 0 <= b0 <= 1 && 0 <= b1 <= 1 && 0 <= b2 <= 1 && 0 <= b3 <= 1
    requires 0 <= b4 <= 1 && 0 <= b5 <= 1 && 0 <= b6 <= 1 && 0 <= b7 <= 1
    requires v == 128 * b0 + 64 * b1 + 32 * b2 + 16 * b3 + 8 * b4 + 4 * b5 + 2 * b6 + b7
    ensures QuotientBit(v, 128) == b0 && QuotientBit(v, 64) == b1 && QuotientBit(v, 32) == b2
    ensures QuotientBit(v, 16) == b3 && QuotientBit(v, 8) == b4 && QuotientBit(v, 4) == b5
    ensures QuotientBit(v, 2) == b6 && QuotientBit(v, 1) == b7
  {
    var q4 := 8 * b0 + 4 * b1 + 2 * b2 + b3;
    HighBits(b0, b1, b2, b3, 8 * b4 + 4 * b5 + 2 * b6 + b7, v);
    LowBits(q4, b4, b5, b6, b7, v);
  }

  lemma HighBits(b0: int, b1: int, b2: int, b3: int, low: int, v: nat)
    requires 0 <= b0 <= 1 && 0 <= b1 <= 1 && 0 <= b2 <= 1 && 0 <= b3 <= 1 && 0 <= low < 16
    requires v == 128 * b0 + 64 * b1 + 32 * b2 + 16 * b3 + low
    ensures QuotientBit(v, 128) == b0 && QuotientBit(v, 64) == b1 && QuotientBit(v, 32) == b2
    ensures QuotientBit(v, 16) == b3
  {
    assert v / 16 == 8 * b0 + 4 * b1 + 2 * b2 + b3 && v / 32 == 4 * b0 + 2 * b1 + b2;
    assert v / 64 == 2 * b0 + b1 && v / 128 == b0;
  }

  lemma LowBits(q: int, b4: int, b5: int, b6: int, b7: int, v: nat)
    requires 0 <= b4 <= 1 && 0 <= b5 <= 1 && 0 <= b6 <= 1 && 0 <= b7 <= 1
    requires v == 16 * q + 8 * b4 + 4 * b5 + 2 * b6 + b7
    ensures QuotientBit(v, 8) == b4 && QuotientBit(v, 4) == b5 && QuotientBit(v, 2) == b6 && QuotientBit(v, 1) == b7
  {
    hide QuotientBit;
    BitOfEights(q, b4, 4 * b5 + 2 * b6 + b7, v);
    BitOfFours(2 * q + b4, b5, 2 * b6 + b7, v);
    BitOfTwos(4 * q + 2 * b4 + b5, b6, b7, v);
    BitOfOnes(8 * q + 4 * b4 + 2 * b5 + b6, b7, v);
  }

  lemma BitOfEights(q: int, bit: int, low: int, v: nat)
    requires 0 <= bit <= 1 && 0 <= low < 8 && v == 16 * q + 8 * bit + low
    ensures QuotientBit(v, 8) == bit
  {
    assert v / 8 == 2 * q + bit;
  }

  lemma BitOfFours(q: int, bit: int, low: int, v: nat)
    requires 0 <= bit <= 1 && 0 <= low < 4 && v == 8 * q + 4 * bit + low
    ensures QuotientBit(v, 4) == bit
  {
    assert v / 4 == 2 * q + bit;
  }

  lemma BitOfTwos(q: int, bit: int, low: int, v: nat)
    requires 0 <= bit <= 1 && 0 <= low < 2 && v == 4 * q + 2 * bit + low
    ensures QuotientBit(v, 2) == bit
  {
    assert v / 2 == 2 * q + bit;
  }

  lemma BitOfOnes(q: int, bit: int, v: nat)
    requires 0 <= bit <= 1 && v == 2 * q + bit
    ensures QuotientBit(v, 1) == bit
  {
  }

  lemma CheckBitOfPackByte(bits: seq<bool>, i: nat)
    requires |bits| <= 8 && i < 8
    ensures CheckBit(PackByte(bits), 7 - i) == (i < |bits| && bits[i])
  {
    var v := PackByte(bits);
    assert CheckBit(v, 7 - i) == (QuotientBit(v, Mask(7 - i)) == 1);
    assert BitAt(bits, i) == 1 <==> i < |bits| && bits[i];
    QuotientBits(BitAt(bits, 0), BitAt(bits, 1), BitAt(bits, 2), BitAt(bits, 3),
                 BitAt(bits, 4), BitAt(bits, 5), BitAt(bits, 6), BitAt(bits, 7), v);
    hide PackByte, BitAt, QuotientBit, CheckBit;
  }

  /** The quotient keeps all bits of v above bit 7 - n. */
  function Above(v: nat, n: nat): nat
    requires n < 8
  {
    v / Mask(7 - n)
  }

  lemma AboveHalves(v: nat, n: nat)
    requires 1 <= n < 8
    ensures Above(v, n - 1) == Above(v, n) / 2
  {
    if n == 1 { assert v / 128 == v / 64 / 2; }
    else if n == 2 { assert v / 64 == v / 32 / 2; }
    else if n == 3 { assert v / 32 == v / 16 / 2; }
    else if n == 4 { assert v / 16 == v / 8 / 2; }
    else if n == 5 { assert v / 8 == v / 4 / 2; }
    else if n == 6 { assert v / 4 == v / 2 / 2; }
    else { assert v / 1 == v; }
  }

  lemma BitIsRemainder(v: nat, n: nat)
    requires 1 <= n < 8
    ensures BitAt(ByteBits(v), n) == Above(v, n) - 2 * Above(v, n - 1)
  {
    hide Mask;
    AboveHalves(v, n);
  }

  lemma PackFromQuotients(bits: seq<bool>, v: int, a0: int, a1: int, a2: int, a3: int, a4: int, a5: int, a6: int)
    requires |bits| == 8
    requires BitAt(bits, 7) == v - 2 * a6 && BitAt(bits, 6) == a6 - 2 * a5 && BitAt(bits, 5) == a5 - 2 * a4
    requires BitAt(bits, 4) == a4 - 2 * a3 && BitAt(bits, 3) == a3 - 2 * a2 && BitAt(bits, 2) == a2 - 2 * a1
    requires BitAt(bits, 1) == a1 - 2 * a0 && BitAt(bits, 0) == a0 % 2
    ensures PackByte(bits) == v - 256 * (a0 / 2)
  {
  }

  /** Writing the low byte of v and reading it back gives v modulo 256. */
  lemma PackOfByteBits(v: nat)
    ensures PackByte(ByteBits(v)) == v % 256
  {
    var bits := ByteBits(v);
    forall n | 1 <= n < 8
      ensures BitAt(bits, n) == Above(v, n) - 2 * Above(v, n - 1)
    {
      BitIsRemainder(v, n);
    }
    var a0 := Above(v, 0);
    PackFromQuotients(bits, v, a0, Above(v, 1), Above(v, 2), Above(v, 3), Above(v, 4), Above(v, 5), Above(v, 6));
    CongruentByte(PackByte(bits), v, a0 / 2);
  }

  /** A byte is determined by its bits. */
  lemma ByteBitsInjective(v: nat, w: nat)
    requires ByteBits(v) == ByteBits(w)
    ensures v % 256 == w % 256
  {
    PackOfByteBits(v);
    PackOfByteBits(w);
  }

  lemma CongruentByte(b: Byte, v: int, q: int)
    requires b == v - 256 * q
    ensures b == v % 256
  {
  }

  /** `byte |= bit << (7 - n)` appends the n-th bit to a partly filled byte. */
  lemma OrBitAppends(bits: seq<bool>, bit: bool)
    requires |bits| < 8
    ensures OrBit(PackByte(bits), 7 - |bits|, bit) == PackByte(bits + [bit])
  {
    CheckBitOfPackByte(bits, |bits|);
    var more := bits + [bit];
    assert forall i: nat :: BitAt(more, i) == BitAt(bits, i) + if i == |bits| && bit then 1 else 0;
    hide BitAt, CheckBit;
  }

  /** The i-th group of eight bits (shorter at the end, empty beyond it). */
  function Group(bits: seq<bool>, i: nat): (g: seq<bool>)
    ensures |g| <= 8
  {
    if 8 * i + 8 <= |bits| then bits[8 * i..8 * i + 8]
    else if 8 * i <= |bits| then bits[8 * i..]
    else []
  }

  /** A bit string as bytes; the last byte is padded with zero bits. */
  function Pack(bits: seq<bool>): (bytes: seq<Byte>)
    ensures |bytes| == (|bits| + 7) / 8
  {
    seq((|bits| + 7) / 8, i requires 0 <= i => PackByte(Group(bits, i)))
  }

  /** The p-th bit of a byte string. */
  predicate StreamBit(bytes: seq<Byte>, p: nat)
    requires p < 8 * |bytes|
  {
    CheckBit(bytes[p / 8], 7 - p % 8)
  }

  function Unpack(bytes: seq<Byte>): (bits: seq<bool>)
    ensures |bits| == 8 * |bytes|
    ensures forall p :: 0 <= p < |bits| ==> bits[p] == StreamBit(bytes, p)
  {
    seq(8 * |bytes|, p requires 0 <= p < 8 * |bytes| => StreamBit(bytes, p))
  }

  /** Packed bits are read back in order, followed only by zero padding. */
  lemma UnpackOfPack(bits: seq<bool>)
    ensures bits <= Unpack(Pack(bits))
    ensures forall p :: |bits| <= p < 8 * |Pack(bits)| ==> !Unpack(Pack(bits))[p]
  {
    forall p | 0 <= p < 8 * |Pack(bits)|
      ensures Unpack(Pack(bits))[p] == (p < |bits| && bits[p])
    {
      CheckBitOfPackByte(Group(bits, p / 8), p % 8);
    }
  }

  /** One more bit changes no complete group of eight. */
  lemma AppendedGroups(bits: seq<bool>, bit: bool, n: nat)
    requires 8 * n <= |bits| < 8 * n + 8
    ensures (bits + [bit])[8 * n..] == bits[8 * n..] + [bit]
    ensures forall i: nat :: i < n ==> Group(bits + [bit], i) == Group(bits, i)
    ensures |bits| == 8 * n + 7 ==> Group(bits + [bit], n) == bits[8 * n..] + [bit]
  {
    var more := bits + [bit];
    forall i: nat | i < n
      ensures Group(more, i) == Group(bits, i)
    {
      assert more[8 * i..8 * i + 8] == bits[8 * i..8 * i + 8];
    }
  }

  /** Appending whole bytes to a bit string. */
  lemma UnpackStep(data: seq<Byte>, i: nat)
    requires i < |data|
    ensures Unpack(data[..i + 1]) == Unpack(data[..i]) + ByteBits(data[i])
  {
    hide CheckBit;
  }

  /** Bits that came from whole bytes pack back to those bytes. */
  lemma PackOfUnpack(data: seq<Byte>, i: nat)
    requires i < |data|
    ensures PackByte(Group(Unpack(data), i)) == data[i]
  {
    hide CheckBit, PackByte;
    assert Group(Unpack(data), i) == ByteBits(data[i]);
    PackOfByteBits(data[i]);
  }

  /** An output buffer after some bits: n whole bytes, kept as far as there is room, and k bits in the next one. */
  ghost predicate Holds(stream: seq<Byte>, n: nat, byte: Byte, k: nat, bits: seq<bool>) {
    && k < 8
    && |bits| == 8 * n + k
    && byte == PackByte(bits[8 * n..])
    && forall i :: 0 <= i < n && i < |stream| ==> stream[i] == PackByte(Group(bits, i))
  }

  /** One more bit: into the byte begun, and with the eighth the byte goes to the stream. */
  lemma HoldsOneMore(stream: seq<Byte>, n: nat, byte: Byte, k: nat, bits: seq<bool>, bit: bool)
    requires Holds(stream, n, byte, k, bits)
    ensures k < 8 && 0 <= OrBit(byte, 7 - k, bit) < 256
    ensures var b := OrBit(byte, 7 - k, bit);
            if k < 7 then Holds(stream, n, b, k + 1, bits + [bit])
            else Holds(if n < |stream| then stream[n := b] else stream, n + 1, 0, 0, bits + [bit])
  {
    assert PackByte([]) == 0;
    hide PackByte, OrBit, CheckBit, Group;
    OrBitAppends(bits[8 * n..], bit);
    AppendedGroups(bits, bit, n);
    if k == 7 {
      assert (bits + [bit])[8 * n + 8..] == [];
    }
  }

  /** HuffBuffer_t: the output side. */
  class BitWriter {
    const stream: array<Byte>
    var streamIndex: nat
    var byte: Byte
    var byteIndex: nat
    ghost var bits: seq<bool>  // everything written so far

    ghost predicate Valid()
      reads this, stream
    {
      Holds(stream[..], streamIndex, byte, byteIndex, bits)
    }

    constructor (streamSize: nat)
      ensures Valid() && fresh(stream) && stream.Length == streamSize && bits == []
    {
      stream := new Byte[streamSize](_ => 0);
      streamIndex, byte, byteIndex := 0, 0, 0;
      bits := [];
    }

    /** What `Valid` says, for the whole and the begun bytes. */
    lemma ValidIsHolds()
      ensures Valid() <==> Holds(stream[..], streamIndex, byte, byteIndex, bits)
      ensures Valid() ==> byteIndex < 8
    {
    }

    /** write_bit */
    method WriteBit(bitValue: bool)
      requires Valid()
      modifies this, stream
      ensures Valid() && bits == old(bits) + [bitValue]
    {
      hide *;
      ValidIsHolds();
      HoldsOneMore(stream[..], streamIndex, byte, byteIndex, bits, bitValue);
      byte := OrBit(byte, 7 - byteIndex, bitValue);
      byteIndex := byteIndex + 1;
      bits := bits + [bitValue];
      if byteIndex == 8 {
        StoreByte();
      }
      ValidIsHolds();
    }

    /** The part of write_bit for a byte that is full. */
    method StoreByte()
      modifies this`streamIndex, this`byte, this`byteIndex, stream
      ensures streamIndex == old(streamIndex) + 1 && byte == 0 && byteIndex == 0
      ensures stream[..] == if old(streamIndex) < stream.Length then old(stream[..])[old(streamIndex) := old(byte)]
                            else old(stream[..])
    {
      if stream.Length > streamIndex {
        stream[streamIndex] := byte;
      }
      byte := 0x00;
      byteIndex := 0;
      streamIndex := streamIndex + 1;
    }

    /** write_byte: only the low byte of the value is written. */
    method WriteByte(byteValue: nat)
      requires Valid()
      modifies this, stream
      ensures Valid() && bits == old(bits) + ByteBits(byteValue)
    {
      hide *;
      var i := 7;
      ghost var n: nat := 0;
      while i >= 0
        invariant -1 <= i == 7 - n
        invariant Valid() && bits == old(bits) + ByteBits(byteValue)[..n]
      {
        ByteBitsGrow(byteValue, n);
        WriteBit(CheckBit(byteValue, i));
        i := i - 1;
        n := n + 1;
      }
    }

    /** The last, partly filled byte. The write is not guarded in the source, so there must be room for it. */
    method Flush()
      requires Valid()
      requires byteIndex > 0 ==> streamIndex < stream.Length
      requires |Pack(bits)| == stream.Length
      modifies this, stream
      ensures stream[..] == Pack(bits) && bits == old(bits)
    {
      if byteIndex > 0 {
        stream[streamIndex] := byte;
        assert Group(bits, streamIndex) == bits[8 * streamIndex..];
        streamIndex := streamIndex + 1;
      }
    }
  }

  /** The bit a reader serves at a position: past the end it goes on serving the last byte. */
  function Served(stream: seq<Byte>, pos: nat): bool
    requires |stream| > 0
  {
    if pos < 8 * |stream| then Unpack(stream)[pos] else CheckBit(stream[|stream| - 1], 7 - pos % 8)
  }

  /** The next n bits a reader serves. */
  function ServedBits(stream: seq<Byte>, pos: nat, n: nat): (bits: seq<bool>)
    requires |stream| > 0
    ensures |bits| == n
  {
    seq(n, i requires 0 <= i < n => Served(stream, pos + i))
  }

  lemma ServedNone(stream: seq<Byte>, pos: nat)
    requires |stream| > 0
    ensures PackByte(ServedBits(stream, pos, 0)) == 0
  {
  }

  /** One round of read_byte: the next bit goes into its place in the byte. */
  lemma ServedStep(stream: seq<Byte>, pos: nat, n: nat)
    requires |stream| > 0 && n < 8
    ensures OrBit(PackByte(ServedBits(stream, pos, n)), 7 - n, Served(stream, pos + n))
            == PackByte(ServedBits(stream, pos, n + 1))
  {
    assert ServedBits(stream, pos, n + 1) == ServedBits(stream, pos, n) + [Served(stream, pos + n)];
    hide PackByte, OrBit, Served;
    OrBitAppends(ServedBits(stream, pos, n), Served(stream, pos + n));
  }

  /** Within the stream the bits served are those of the stream. */
  lemma ServedInside(stream: seq<Byte>, pos: nat, n: nat)
    requires |stream| > 0 && pos + n <= 8 * |stream|
    ensures ServedBits(stream, pos, n) == Unpack(stream)[pos..pos + n]
  {
    var a, b := ServedBits(stream, pos, n), Unpack(stream)[pos..pos + n];
    forall i | 0 <= i < n
      ensures a[i] == b[i]
    {
      assert Served(stream, pos + i) == Unpack(stream)[pos + i];
    }
  }

  /** HuffReadOnlyBuffer_t: the input side. */
  class BitReader {
    const stream: seq<Byte>
    var streamIndex: nat
    var byte: Byte
    var byteIndex: nat

    /** Number of bits read so far. */
    ghost function Pos(): int
      reads this
    {
      8 * (streamIndex - 1) + byteIndex
    }

    ghost predicate Valid()
      reads this
    {
      && byteIndex < 8
      && 1 <= streamIndex
      && |stream| > 0
      && byte == if streamIndex <= |stream| then stream[streamIndex - 1] else stream[|stream| - 1]
    }

    constructor (data: seq<Byte>)
      requires |data| > 0
      ensures Valid() && Pos() == 0 && stream == data
    {
      stream := data;
      streamIndex := 1;
      byteIndex := 0;
      byte := data[0];
    }

    /** read_bit: past the end it keeps serving the last byte. */
    method ReadBit() returns (bitValue: bool)
      requires Valid()
      modifies this
      ensures Valid() && Pos() == old(Pos()) + 1
      ensures bitValue == Served(stream, old(Pos()))
    {
      hide CheckBit;
      bitValue := CheckBit(byte, 7 - byteIndex);
      byteIndex := byteIndex + 1;
      if byteIndex == 8 {
        byteIndex := 0;
        if |stream| > streamIndex {
          byte := stream[streamIndex];
        }
        streamIndex := streamIndex + 1;
      }
    }

    lemma Started()
      requires Valid()
      ensures Pos() >= 0 && |stream| > 0
    {
    }

    /** read_byte: the next eight bits, highest first. */
    method ReadByte() returns (b: Byte)
      requires Valid()
      modifies this
      ensures Valid() && Pos() == old(Pos()) + 8
      ensures b == PackByte(ServedBits(stream, old(Pos()), 8))
    {
      hide *;
      Started();
      ghost var p: nat := Pos();
      ServedNone(stream, p);
      b := 0x00;
      var i := 7;
      ghost var n: nat := 0;
      while i >= 0
        invariant -1 <= i == 7 - n
        invariant Valid() && Pos() == p + n
        invariant b == PackByte(ServedBits(stream, p, n))
      {
        var bitValue := ReadBit();
        ServedStep(stream, p, n);
        b := OrBit(b, i, bitValue);
        i := i - 1;
        n := n + 1;
      }
    }
  }
}
