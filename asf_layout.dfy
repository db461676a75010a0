/**
 * Offset arithmetic of the data section. Packets are assumed to have the
 * constant size `min_packet_size`; packet `i` starts at
 * `packet_offset + i * min_packet_size`, where `packet_offset` is the header
 * size plus the size of the data object.
 */
module AsfLayout {
  import opened AsfCore

  /** The parser's `packet_offset`, `packet_offset_end` and the file-properties fields they use. */
  datatype Layout = Layout(packetOffset: int, packetOffsetEnd: int, packetCount: nat, minPacketSize: nat)

  /**
   * The layout `ReadHeader` computes from the header size and the file
   * properties. The product of the 64-bit packet count and the 32-bit packet
   * size is taken modulo 2^64, as in the source.
   */
  function LayoutOf(headerSize: nat, packetCount: nat, minPacketSize: nat): (l: Layout)
    ensures l.packetOffset == headerSize + DataObjectSize > 0
    ensures packetCount * minPacketSize < TwoTo64 ==> l.packetOffsetEnd == l.packetOffset + packetCount * minPacketSize
  {
    var po := headerSize + DataObjectSize;
    Layout(po, po + (packetCount * minPacketSize) % TwoTo64, packetCount, minPacketSize)
  }

  /**
   * `GetPacketOffset` exactly as written: the packet index (an `int`) times the
   * `uint32_t` packet size is an unsigned 32-bit product, so it wraps for
   * offsets 4 GiB or more past the start of the packets.
   */
  function PacketOffsetAsWritten(l: Layout, index: int): int
  {
    if index < 0 || index >= Int32(l.packetCount) then 0
    else l.packetOffset + UInt32(index * l.minPacketSize)
  }

  /**
   * `GetPacketOffset` with the product taken in 64 bits, as the 64-bit result
   * type and `packet_offset_end` evidently intend: 0 for an index outside
   * `0 .. (int) data_packet_count - 1`.
   */
  function PacketOffset(l: Layout, index: int): (r: int)
    ensures (index < 0 || index >= Int32(l.packetCount)) ==> r == 0
  {
    if index < 0 || index >= Int32(l.packetCount) then 0
    else l.packetOffset + index * l.minPacketSize
  }

  /**
   * `GetPacketIndex`: -1 before the first packet, the packet count (as an
   * `int`) past `packet_offset_end`, otherwise the whole number of packets
   * from the first one. The source divides by `min_packet_size`, so inside the
   * range it must not be 0.
   */
  function PacketIndex(l: Layout, offset: int): (r: int)
    requires l.packetOffset <= offset <= l.packetOffsetEnd ==> l.minPacketSize > 0
    ensures offset < l.packetOffset ==> r == -1
    ensures offset > l.packetOffsetEnd && offset >= l.packetOffset ==> r == Int32(l.packetCount)
  {
    if offset < l.packetOffset then -1
    else if offset > l.packetOffsetEnd then Int32(l.packetCount)
    else Int32((offset - l.packetOffset) / l.minPacketSize)
  }

  /**
   * A valid packet lies inside the data section `ReadHeader` lays out: it
   * starts at or after `packet_offset`, which is positive, and ends by
   * `packet_offset_end`, while the section fits in 64 bits.
   */
  lemma {:induction false} PacketWithinData(headerSize: nat, count: nat, minSize: nat, index: int)
    requires count * minSize < TwoTo64 && 0 <= index < Int32(count)
    ensures var l := LayoutOf(headerSize, count, minSize);
      0 < l.packetOffset <= PacketOffset(l, index) && PacketOffset(l, index) + minSize <= l.packetOffsetEnd
  {
    var l := LayoutOf(headerSize, count, minSize);
    ValidIndexBelowCount(count, index);
    assert (index + 1) * minSize <= count * minSize by {
      MulMono(index + 1, count, minSize);
    }
  }

  lemma MulMono(i: int, j: int, m: nat)
    requires 0 <= i <= j
    ensures i * m <= j * m
  {
    assert j * m == i * m + (j - i) * m;
  }

  /** Offsets of valid indices are strictly increasing when packets are not empty. */
  lemma {:induction false} PacketOffsetIncreasing(l: Layout, i: int, j: int)
    requires l.minPacketSize > 0 && 0 <= i < j < Int32(l.packetCount)
    ensures PacketOffset(l, i) < PacketOffset(l, j)
  {
    assert i * l.minPacketSize < j * l.minPacketSize by {
      MulStrict(i, j, l.minPacketSize);
    }
  }

  lemma MulStrict(i: int, j: int, m: int)
    requires 0 <= i < j && m > 0
    ensures i * m < j * m
  {
    assert j * m == i * m + (j - i) * m;
  }

  lemma MulAtLeast(k: int, m: int)
    requires k >= 1 && m > 0
    ensures k * m >= m
  {
    assert k * m == m + (k - 1) * m;
  }

  lemma DivMulExact(i: int, m: int)
    requires i >= 0 && m > 0
    ensures (i * m) / m == i
  {
    var q, r := (i * m) / m, (i * m) % m;
    assert i * m == q * m + r && 0 <= r < m;
    assert (i - q) * m == r;
    if q < i {
      MulAtLeast(i - q, m);
      assert false;
    } else if q > i {
      assert (q - i) * m == -r;
      MulAtLeast(q - i, m);
      assert false;
    }
  }

  /** A valid index is below the packet count itself, whatever `(int)` does to the count. */
  lemma ValidIndexBelowCount(count: nat, i: int)
    requires 0 <= i < Int32(count)
    ensures i < count && i < TwoTo31
  {
  }

  /**
   * Round trip: the index of the offset of a valid packet is that packet,
   * when packets are not empty and the data section fits in 64 bits.
   */
  lemma {:induction false} PacketIndexOfOffset(headerSize: nat, count: nat, minSize: nat, i: int)
    requires minSize > 0 && count * minSize < TwoTo64
    requires 0 <= i < Int32(count)
    ensures PacketIndex(LayoutOf(headerSize, count, minSize), PacketOffset(LayoutOf(headerSize, count, minSize), i)) == i
  {
    var l := LayoutOf(headerSize, count, minSize);
    var off := PacketOffset(l, i);
    ValidIndexBelowCount(count, i);
    var p := i * minSize;
    assert off == l.packetOffset + p;
    MulStrict(i, count, minSize);
    assert p < count * minSize;
    assert l.packetOffsetEnd == l.packetOffset + count * minSize;
    assert l.packetOffset <= off <= l.packetOffsetEnd;
    DivMulExact(i, minSize);
    assert (off - l.packetOffset) / minSize == i;
  }

  /** The as-written offset agrees with the 64-bit one while the product stays below 2^32. */
  lemma AsWrittenBelow4GiB(l: Layout, index: int)
    requires 0 <= index * l.minPacketSize < TwoTo32
    ensures PacketOffsetAsWritten(l, index) == PacketOffset(l, index)
  {
  }

  /**
   * The as-written offset breaks the round trip: with 65537 packets of 64 KiB,
   * packet 65536 is placed at the first packet's offset, whose index is 0.
   */
  lemma AsWrittenRoundTripFails()
    ensures var l := LayoutOf(0x1000, 0x10001, 0x10000);
      PacketOffsetAsWritten(l, 0x10000) == l.packetOffset &&
      PacketIndex(l, PacketOffsetAsWritten(l, 0x10000)) == 0 &&
      PacketIndex(l, PacketOffset(l, 0x10000)) == 0x10000
  {
    var l := LayoutOf(0x1000, 0x10001, 0x10000);
    assert UInt32(0x10000 * 0x10000) == 0;
    PacketIndexOfOffset(0x1000, 0x10001, 0x10000, 0x10000);
  }
}
